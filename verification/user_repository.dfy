/** The user repository of models/users/user_repository.go: sign-up and the
    initial state of a new user, password authentication, lookup by e-mail,
    profile update defaults, and the user-role join. */
module UserRepository {
  import opened Wrappers
  import opened ObjectIds
  import opened Users
  import Strings
  import Store
  import RolesRepository
  import Clock

  /** The `users` collection in natural order. */
  type UserStore = seq<User>

  /** No two users share an id. */
  predicate UniqueIds(store: UserStore) {
    forall i, j :: 0 <= i < j < |store| ==> store[i].id != store[j].id
  }

  /** `i` is the first stored user with id `id`: the record `FindOne` and
      `UpdateOne` on `{_id: id}` reach. */
  predicate FirstWithId(store: UserStore, id: ObjectId, i: int) {
    0 <= i < |store| && store[i].id == id && forall j :: 0 <= j < i ==> store[j].id != id
  }

  /** With unique ids, a stored user is the first with its id. */
  lemma UniqueIsFirst(store: UserStore, i: nat)
    requires UniqueIds(store) && i < |store|
    ensures FirstWithId(store, store[i].id, i)
  {
  }

  /** The errors one call meets: `connect` on connecting, `lookup` a `FindOne`
      error other than "no documents", `write` an insert or update error. */
  datatype Faults = Faults(connect: Option<string>, lookup: Option<string>, write: Option<string>)

  const NotFound: string := "usuário não encontrado, verifique o e-mail ou senha"

  // ---- creating users ----------------------------------------------------------------

  /** `CreateUser`: `salting` is the outcome of `SetSaltedPassword` — a salt and
      a password hash, or an error, which is dropped, leaving the password as
      given. */
  function CreateUser(user: User, store: UserStore, newId: ObjectId, salting: Result<(string, string), string>, now: int, faults: Faults): (r: (UserStore, Option<string>))
    ensures r.1.Some? ==> r.0 == store
    ensures r.1.None? ==> |r.0| == |store| + 1 && r.0[..|store|] == store
  {
    if faults.connect.Some? then (store, faults.connect)
    else if faults.write.Some? then (store, faults.write)
    else
      var secured := match salting
        case Ok((salt, hash)) => user.(salt := salt, password := hash)
        case Err(_) => user;
      var created := secured.(id := newId, isDeleted := false, isEmailConfirmed := false,
                              createdAt := Clock.Millis(now), lastLogin := 0, isPublic := false, profileViews := 0,
                              links := Some([]), experiences := Some([]), techExperiences := Some([]));
      (store + [created], None)
  }

  /** A new user starts unconfirmed, not deleted, private, never seen and with
      empty link and experience lists; names, e-mail and roles are kept. */
  lemma NewUserInitialState(user: User, store: UserStore, newId: ObjectId, salting: Result<(string, string), string>, now: int, faults: Faults)
    requires CreateUser(user, store, newId, salting, now, faults).1.None?
    ensures var u := CreateUser(user, store, newId, salting, now, faults).0[|store|];
            && u.id == newId && !u.isEmailConfirmed && !u.isDeleted && !u.isPublic
            && u.profileViews == 0 && u.lastLogin == 0
            && u.links == Some([]) && u.experiences == Some([]) && u.techExperiences == Some([])
            && u.email == user.email && u.firstName == user.firstName && u.roles == user.roles
            && (salting.Ok? ==> u.salt == salting.value.0 && u.password == salting.value.1)
            && (salting.Err? ==> u.password == user.password)
  {
  }

  /** What `SignUp` did: the store and error, and the address a welcome mail
      goes to. */
  datatype SignedUp = SignedUp(store: UserStore, error: Option<string>, mailTo: Option<string>)

  /** `SignUp`: `passwordCheck` is the verdict of `ValidatePassword` and
      `validationToken` the token `GetValidationToken` draws. */
  function SignUp(user: User, passwordCheck: Option<string>, validationToken: string, store: UserStore, newId: ObjectId,
                  salting: Result<(string, string), string>, now: int, faults: Faults): (r: SignedUp)
    ensures passwordCheck.Some? ==> r == SignedUp(store, passwordCheck, None)
    ensures r.error.Some? ==> r.store == store && r.mailTo.None?
    ensures r.error.None? ==> r.mailTo == Some(Strings.ToLower(user.email))
                              && |r.store| == |store| + 1
                              && r.store[|store|].email == Strings.ToLower(user.email)
                              && r.store[|store|].validationToken == validationToken
                              && !r.store[|store|].isEmailConfirmed
  {
    if passwordCheck.Some? then SignedUp(store, passwordCheck, None)
    else
      var prepared := user.(email := Strings.ToLower(user.email), validationToken := validationToken);
      var (store', err) := CreateUser(prepared, store, newId, salting, now, faults);
      if err.Some? then SignedUp(store, err, None)
      else SignedUp(store', None, Some(prepared.email))
  }

  // ---- looking users up ---------------------------------------------------------------

  /** `FindOne({email: strings.ToLower(email)})`. */
  function FindByEmail(store: UserStore, email: string): (r: Option<nat>)
    ensures r.Some? ==> r.value < |store| && store[r.value].email == Strings.ToLower(email)
    ensures r.None? <==> forall j :: 0 <= j < |store| ==> store[j].email != Strings.ToLower(email)
  {
    Store.FirstMatch(store, (u: User) => u.email == Strings.ToLower(email))
  }

  /** `GetUserByEmail`: a missing user, and any lookup error, give the zero
      user with no error. */
  function GetUserByEmail(email: string, store: UserStore, faults: Faults): (r: Result<User, string>)
    ensures r.Err? <==> faults.connect.Some?
    ensures r.Ok? && r.value != NoUser ==> r.value in store && r.value.email == Strings.ToLower(email)
  {
    FindOne(store, faults, (u: User) => u.email == Strings.ToLower(email))
  }

  /** A `FindOne(filter).Decode(&result)` on `users`: a lookup error, like no
      match, leaves the zero user and reports nothing. */
  function FindOne(store: UserStore, faults: Faults, matches: User -> bool): (r: Result<User, string>)
    ensures r.Err? <==> faults.connect.Some?
    ensures r.Ok? && r.value != NoUser ==> r.value in store && matches(r.value)
    ensures faults.connect.None? && faults.lookup.None? && (forall j :: 0 <= j < |store| ==> !matches(store[j])) ==> r == Ok(NoUser)
    ensures faults.connect.None? && faults.lookup.None? ==>
              forall i :: 0 <= i < |store| && matches(store[i]) && (forall j :: 0 <= j < i ==> !matches(store[j])) ==> r == Ok(store[i])
  {
    if faults.connect.Some? then Err(faults.connect.value)
    else if faults.lookup.Some? then Ok(NoUser)
    else
      match Store.FirstMatch(store, matches)
      case None => Ok(NoUser)
      case Some(i) => Ok(store[i])
  }

  /** `GetUserById`. */
  function GetUserById(id: ObjectId, store: UserStore, faults: Faults): (r: Result<User, string>)
    ensures r.Ok? && r.value != NoUser ==> r.value in store && r.value.id == id
  {
    FindOne(store, faults, (u: User) => u.id == id)
  }

  /** `GetUserByValidationToken`: the first user whose validation token is
      `token`, whatever `token` is. */
  function GetUserByValidationToken(token: string, store: UserStore, faults: Faults): (r: Result<User, string>)
    ensures r.Ok? && r.value != NoUser ==> r.value in store && r.value.validationToken == token
  {
    FindOne(store, faults, (u: User) => u.validationToken == token)
  }

  /** `UpdateValidationToken`: writes `user.validationToken` onto the stored
      user with the same id. */
  function UpdateValidationToken(user: User, store: UserStore, faults: Faults): (r: (UserStore, Option<string>))
    ensures r.1.Some? <==> faults.connect.Some? || faults.write.Some?
    ensures r.1.Some? ==> r.0 == store
    ensures |r.0| == |store|
    ensures r.1.None? && (forall j :: 0 <= j < |store| ==> store[j].id != user.id) ==> r.0 == store
    ensures r.1.None? ==> forall i :: FirstWithId(store, user.id, i) ==>
              && r.0[i] == store[i].(validationToken := user.validationToken)
              && forall j :: 0 <= j < |store| && j != i ==> r.0[j] == store[j]
  {
    if faults.connect.Some? then (store, faults.connect)
    else if faults.write.Some? then (store, faults.write)
    else
      match Store.FirstMatch(store, (u: User) => u.id == user.id)
      case None => (store, None)
      case Some(i) => (store[i := store[i].(validationToken := user.validationToken)], None)
  }

  /** A token written by `UpdateValidationToken` finds the user again: when no
      other stored user holds it, `GetUserByValidationToken` answers the
      updated record. */
  lemma UpdateThenFindByValidationToken(user: User, store: UserStore, faults: Faults, i: nat)
    requires faults.connect.None? && faults.lookup.None? && faults.write.None?
    requires FirstWithId(store, user.id, i)
    requires forall j :: 0 <= j < |store| && j != i ==> store[j].validationToken != user.validationToken
    ensures var s := UpdateValidationToken(user, store, faults).0;
            GetUserByValidationToken(user.validationToken, s, faults) == Ok(store[i].(validationToken := user.validationToken))
  {
    var s := UpdateValidationToken(user, store, faults).0;
    var m := (u: User) => u.validationToken == user.validationToken;
    assert m(s[i]);
    assert forall j :: 0 <= j < i ==> !m(s[j]);
  }

  /** `ConfirmEmail`: sets `is_email_confirmed` on the stored user with the
      receiver's id. */
  function ConfirmEmail(user: User, store: UserStore, faults: Faults): (r: (UserStore, Option<string>))
    ensures r.1.Some? <==> faults.connect.Some? || faults.write.Some?
    ensures r.1.Some? ==> r.0 == store
    ensures |r.0| == |store|
    ensures r.1.None? && (forall j :: 0 <= j < |store| ==> store[j].id != user.id) ==> r.0 == store
    ensures r.1.None? ==> forall i :: FirstWithId(store, user.id, i) ==>
              && r.0[i] == store[i].(isEmailConfirmed := true)
              && forall j :: 0 <= j < |store| && j != i ==> r.0[j] == store[j]
  {
    if faults.connect.Some? then (store, faults.connect)
    else if faults.write.Some? then (store, faults.write)
    else
      match Store.FirstMatch(store, (u: User) => u.id == user.id)
      case None => (store, None)
      case Some(i) => (store[i := store[i].(isEmailConfirmed := true)], None)
  }

  /** After a confirmation the user reads back confirmed by id, and confirming
      again changes nothing. */
  lemma ConfirmEmailThenGetById(user: User, store: UserStore, faults: Faults, i: nat)
    requires faults.connect.None? && faults.lookup.None? && faults.write.None?
    requires FirstWithId(store, user.id, i)
    ensures var s := ConfirmEmail(user, store, faults).0;
            && GetUserById(user.id, s, faults) == Ok(store[i].(isEmailConfirmed := true))
            && ConfirmEmail(user, s, faults).0 == s
  {
    var s := ConfirmEmail(user, store, faults).0;
    assert FirstWithId(s, user.id, i);
    var s2 := ConfirmEmail(user, s, faults).0;
    assert s2[i] == s[i];
    assert forall j :: 0 <= j < |s| ==> s2[j] == s[j];
  }

  /** The lookup ignores the case of the address asked for. */
  lemma GetUserByEmailIgnoresCase(a: string, b: string, store: UserStore, faults: Faults)
    requires Strings.ToLower(a) == Strings.ToLower(b)
    ensures GetUserByEmail(a, store, faults) == GetUserByEmail(b, store, faults)
  {
  }

  /** `IsAuthenticated`: `hash(password, salt)` is the base64 salt decode,
      scrypt and base64 encode, or their error. */
  function IsAuthenticated(email: string, password: string, store: UserStore,
                           hash: (string, string) -> Result<string, string>, faults: Faults): (r: Result<bool, string>)
    ensures r == Ok(false) <==> faults.connect.None? && faults.lookup.None? && FindByEmail(store, email).None?
  {
    if faults.connect.Some? then Err(faults.connect.value)
    else
      var found := if faults.lookup.Some? then Some(NoUser)
                   else match FindByEmail(store, email)
                        case None => None
                        case Some(i) => Some(store[i]);
      match found
      case None => Ok(false)
      case Some(u) =>
        if u.email == "" then Err(NotFound)
        else
          match hash(password, u.salt)
          case Err(e) => Err(e)
          case Ok(h) => if h != u.password then Err(NotFound) else Ok(true)
  }

  /** The decision: `Ok(true)` exactly when the stored user's hash matches; an
      unknown address is `Ok(false)`; a wrong password is an error, never
      `Ok(false)`. */
  lemma IsAuthenticatedDecision(email: string, password: string, store: UserStore,
                                hash: (string, string) -> Result<string, string>, faults: Faults)
    requires faults.connect.None? && faults.lookup.None?
    ensures var r := IsAuthenticated(email, password, store, hash, faults);
            var i := FindByEmail(store, email);
            && (r == Ok(true) <==> i.Some? && store[i.value].email != ""
                                   && hash(password, store[i.value].salt) == Ok(store[i.value].password))
            && ((i.Some? && store[i.value].email != "" && hash(password, store[i.value].salt).Ok?
                 && hash(password, store[i.value].salt).value != store[i.value].password) ==> r == Err(NotFound))
  {
  }

  /** A user who signs up can then authenticate, with the address in any case,
      given a hash that recomputes what salting stored and no other user with
      that address. */
  lemma SignUpThenAuthenticate(user: User, validationToken: string, store: UserStore, newId: ObjectId,
                               salt: string, stored: string, now: int, faults: Faults,
                               hash: (string, string) -> Result<string, string>, email: string)
    requires faults.connect.None? && faults.lookup.None? && faults.write.None?
    requires user.email != "" && Strings.ToLower(email) == Strings.ToLower(user.email)
    requires FindByEmail(store, user.email).None?
    requires hash(user.password, salt) == Ok(stored)
    ensures var s := SignUp(user, None, validationToken, store, newId, Ok((salt, stored)), now, faults).store;
            IsAuthenticated(email, user.password, s, hash, faults) == Ok(true)
  {
    var r := SignUp(user, None, validationToken, store, newId, Ok((salt, stored)), now, faults);
    var s := r.store;
    Strings.ToLowerIdempotent(user.email);
    assert s[|store|].email == Strings.ToLower(user.email);
    assert forall j :: 0 <= j < |store| ==> s[j] == store[j];
    var i := FindByEmail(s, email);
    assert i == Some(|store|);
    assert s[|store|].salt == salt && s[|store|].password == stored;
  }

  // ---- profile update --------------------------------------------------------------------

  /** `Update`: the fields it writes onto the stored user with the same id —
      an empty location list becomes the user's city and state at priority 1,
      and the user name is lower-cased. A missing user changes nothing. */
  function Update(user: User, store: UserStore, faults: Faults): (r: (UserStore, Option<string>))
    ensures r.1.Some? <==> faults.connect.Some? || faults.write.Some?
    ensures r.1.Some? ==> r.0 == store
    ensures |r.0| == |store|
    ensures r.1.None? && (forall j :: 0 <= j < |store| ==> store[j].id != user.id) ==> r.0 == store
    ensures r.1.None? ==> forall i :: FirstWithId(store, user.id, i) ==>
              && r.0[i].id == user.id
              && forall j :: 0 <= j < |store| && j != i ==> r.0[j] == store[j]
  {
    if faults.connect.Some? then (store, faults.connect)
    else if faults.write.Some? then (store, faults.write)
    else
      var locations :=
        if user.jobLocations.None? || user.jobLocations.value == [] then Some([JobLocation(user.city, user.state, 1)])
        else user.jobLocations;
      match Store.FirstMatch(store, (u: User) => u.id == user.id)
      case None => (store, None)
      case Some(i) =>
        (store[i := store[i].(firstName := user.firstName, lastName := user.lastName, city := user.city,
                               state := user.state, links := user.links, experiences := user.experiences,
                               userName := Strings.ToLower(user.userName), isPublic := user.isPublic,
                               techExperiences := user.techExperiences, jobLocations := locations)], None)
  }

  /** The updated record carries the profile fields of `user`, a non-empty
      location list — the user's own, or the city and state at priority 1 —
      and a lower-case user name, while its e-mail, password, roles,
      confirmation and counters are untouched. */
  lemma UpdateDefaults(user: User, store: UserStore, faults: Faults, i: nat)
    requires Update(user, store, faults).1.None?
    requires FirstWithId(store, user.id, i)
    ensures var u := Update(user, store, faults).0[i];
            && u.firstName == user.firstName && u.lastName == user.lastName
            && u.city == user.city && u.state == user.state
            && u.links == user.links && u.experiences == user.experiences
            && u.techExperiences == user.techExperiences && u.isPublic == user.isPublic
            && (user.jobLocations.Some? && user.jobLocations.value != [] ==> u.jobLocations == user.jobLocations)
            && u.jobLocations.Some? && |u.jobLocations.value| > 0
            && (user.jobLocations.None? || user.jobLocations.value == [] ==> u.jobLocations == Some([JobLocation(user.city, user.state, 1)]))
            && u.userName == Strings.ToLower(user.userName)
            && Strings.ToLower(u.userName) == u.userName
            && u.email == store[i].email && u.password == store[i].password && u.salt == store[i].salt
            && u.roles == store[i].roles && u.isEmailConfirmed == store[i].isEmailConfirmed
            && u.profileViews == store[i].profileViews && u.validationToken == store[i].validationToken
  {
    Strings.ToLowerIdempotent(user.userName);
  }

  // ---- roles -----------------------------------------------------------------------------

  /** The catalogue names whose id is `role`, in catalogue order; ids that are
      not hex are skipped. */
  function NamesOf(role: ObjectId, catalog: seq<RolesRepository.Role>): (names: seq<string>)
    ensures forall n :: n in names <==> exists r :: r in catalog && FromHex(r.id) == Some(role) && r.name == n
  {
    if catalog == [] then []
    else
      var rest := NamesOf(role, catalog[1..]);
      assert forall r :: r in catalog[1..] ==> r in catalog;
      assert forall r :: r in catalog ==> r == catalog[0] || r in catalog[1..];
      if FromHex(catalog[0].id) == Some(role) then [catalog[0].name] + rest else rest
  }

  /** The nested loop of `GetUserRoles`: user role by user role, catalogue
      order within. */
  function JoinRoles(userRoles: seq<ObjectId>, catalog: seq<RolesRepository.Role>): (names: seq<string>)
  {
    if userRoles == [] then [] else NamesOf(userRoles[0], catalog) + JoinRoles(userRoles[1..], catalog)
  }

  /** A name is in the join exactly when a catalogue role with a valid id
      naming one of the user's roles carries it. */
  lemma {:induction false} JoinRolesMembership(userRoles: seq<ObjectId>, catalog: seq<RolesRepository.Role>, n: string)
    ensures n in JoinRoles(userRoles, catalog) <==>
            exists role, r :: role in userRoles && r in catalog && FromHex(r.id) == Some(role) && r.name == n
  {
    if userRoles != [] {
      JoinRolesMembership(userRoles[1..], catalog, n);
      assert forall role :: role in userRoles <==> role == userRoles[0] || role in userRoles[1..];
    }
  }

  /** The join follows the order of the user's roles. */
  lemma {:induction false} JoinRolesAppend(a: seq<ObjectId>, b: seq<ObjectId>, catalog: seq<RolesRepository.Role>)
    ensures JoinRoles(a + b, catalog) == JoinRoles(a, catalog) + JoinRoles(b, catalog)
  {
    if a == [] {
      assert a + b == b;
    } else {
      assert (a + b)[0] == a[0];
      assert (a + b)[1..] == a[1..] + b;
      JoinRolesAppend(a[1..], b, catalog);
    }
  }

  /** `GetUserRoles`: `catalog` is what `roles.GetRoles` answers, asked only
      for a user with a role list. A missing user, a lookup error and a nil
      role list all give an empty list and no error. */
  function GetUserRoles(id: ObjectId, store: UserStore, catalog: Result<seq<RolesRepository.Role>, string>, faults: Faults): (r: Result<seq<string>, string>)
    ensures r.Err? ==> faults.connect.Some? || catalog.Err?
    ensures r.Ok? && r.value != [] ==> exists i :: 0 <= i < |store| && store[i].id == id && store[i].roles.Some?
    ensures faults.connect.None? && (forall j :: 0 <= j < |store| ==> store[j].id != id) ==> r == Ok([])
    ensures faults.connect.None? && faults.lookup.None? ==> forall i :: FirstWithId(store, id, i) ==>
              && (store[i].roles.None? ==> r == Ok([]))
              && (store[i].roles.Some? && catalog.Ok? ==> r == Ok(JoinRoles(store[i].roles.value, catalog.value)))
              && (store[i].roles.Some? && catalog.Err? ==> r == Err(catalog.error))
  {
    if faults.connect.Some? then Err(faults.connect.value)
    else if faults.lookup.Some? then Ok([])
    else
      match Store.FirstMatch(store, (u: User) => u.id == id)
      case None => Ok([])
      case Some(i) =>
        match store[i].roles
        case None => Ok([])
        case Some(roles) =>
          match catalog
          case Err(e) => Err(e)
          case Ok(cat) => Ok(JoinRoles(roles, cat))
  }

  /** For a stored user, the answer names exactly the catalogue roles whose
      valid id is among the user's roles; a user without a role list gets
      none. */
  lemma GetUserRolesNames(id: ObjectId, store: UserStore, cat: seq<RolesRepository.Role>, faults: Faults, i: nat, n: string)
    requires faults.connect.None? && faults.lookup.None?
    requires UniqueIds(store) && i < |store| && store[i].id == id
    ensures GetUserRoles(id, store, Ok(cat), faults).Ok?
    ensures n in GetUserRoles(id, store, Ok(cat), faults).value <==>
            store[i].roles.Some? && exists role, r :: role in store[i].roles.value && r in cat && FromHex(r.id) == Some(role) && r.name == n
  {
    UniqueIsFirst(store, i);
    if store[i].roles.Some? {
      JoinRolesMembership(store[i].roles.value, cat, n);
    }
  }
}
