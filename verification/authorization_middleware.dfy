/** The role gate of middlewares/authorization/middleware.go. gin's
    `AbortWithStatusJSON` does not return, so the gate is modelled as the
    sequence of effects it has on the request context. */
module AuthorizationMiddleware {
  import opened Wrappers
  import opened ObjectIds
  import opened Users

  const Unauthorized: string := "Unauthorized"

  /** What one step of the gate does to the request: abort with a JSON reply,
      store the matched role under `userRole`, or call `c.Next()`. */
  datatype Effect = Abort(status: int, message: string) | SetRole(role: string) | Next

  /** A run of the gate: its effects in order, or a panic of `MustGet` when no
      identity is stored under `userInfo`. */
  datatype Run = Run(effects: seq<Effect>) | Panic

  /** The index in `required` of the first role, in required-list order, that
      also appears among `held`. */
  function FirstHeld(required: seq<string>, held: seq<string>): (r: Option<nat>)
    ensures r.Some? ==> r.value < |required| && required[r.value] in held
                        && forall i :: 0 <= i < r.value ==> required[i] !in held
    ensures r.None? <==> forall i :: 0 <= i < |required| ==> required[i] !in held
  {
    if required == [] then None
    else if required[0] in held then Some(0)
    else match FirstHeld(required[1..], held)
      case None => None
      case Some(i) => Some(i + 1)
  }

  /** `AuthorizationMiddleware(required)` on a request whose stored identity is
      `userInfo`; `lookup` is `users.GetUserRoles`, whose error leaves an empty
      role list. */
  function Gate(required: seq<string>, userInfo: Option<UserInfo>, lookup: ObjectId -> Result<seq<string>, string>): (r: Run)
    ensures required == [] ==> r == Run([Next])
    ensures required != [] && userInfo.None? ==> r.Panic?
    ensures r.Run? && required != [] ==> |r.effects| > 0 && (r.effects[|r.effects| - 1].Next? || r.effects[|r.effects| - 1].Abort?)
  {
    if required == [] then Run([Next])
    else match userInfo
      case None => Panic
      case Some(info) =>
        var zeroCheck := if IsZero(info.id) then [Abort(401, Unauthorized)] else [];
        var roles := lookup(info.id);
        var lookupCheck := if roles.Err? then [Abort(401, Unauthorized)] else [];
        var held := if roles.Ok? then roles.value else [];
        var decision := match FirstHeld(required, held)
          case Some(i) => [SetRole(required[i]), Next]
          case None => [Abort(401, Unauthorized)];
        Run(zeroCheck + lookupCheck + decision)
  }

  /** The protected handler runs when the gate calls `Next` with no abort
      before it (after an abort gin's `Next` runs nothing). */
  predicate HandlerRuns(r: Run) {
    r.Run? && exists k :: 0 <= k < |r.effects| && r.effects[k].Next?
                          && forall j :: 0 <= j < k ==> !r.effects[j].Abort?
  }

  /** The role stored under `userRole` by the first `SetRole` among the effects. */
  function StoredRole(effects: seq<Effect>): (role: Option<string>)
    ensures role.Some? <==> exists k :: 0 <= k < |effects| && effects[k].SetRole?
    ensures role.Some? ==> SetRole(role.value) in effects
  {
    if effects == [] then None
    else if effects[0].SetRole? then Some(effects[0].role)
    else
      var rest := StoredRole(effects[1..]);
      assert forall k :: 0 < k < |effects| ==> effects[k] == effects[1..][k - 1];
      rest
  }

  /** After a leading abort nothing downstream runs. */
  lemma AbortFirstStops(effects: seq<Effect>)
    requires |effects| > 0 && effects[0].Abort?
    ensures !HandlerRuns(Run(effects))
  {
    forall k | 0 <= k < |effects| && effects[k].Next?
      ensures exists j :: 0 <= j < k && effects[j].Abort?
    {
      assert effects[0].Abort?;
    }
  }

  /** An empty requirement passes without reading the identity or the roles. */
  lemma EmptyRequirementPasses(userInfo: Option<UserInfo>, lookup: ObjectId -> Result<seq<string>, string>)
    ensures HandlerRuns(Gate([], userInfo, lookup))
  {
    assert Gate([], userInfo, lookup).effects[0].Next?;
  }

  /** The handler runs exactly when nothing is required, or a non-zero identity
      whose roles were read holds some required role. */
  lemma PassesIff(required: seq<string>, userInfo: Option<UserInfo>, lookup: ObjectId -> Result<seq<string>, string>)
    ensures HandlerRuns(Gate(required, userInfo, lookup)) <==>
            required == [] ||
            (userInfo.Some? && !IsZero(userInfo.value.id) && lookup(userInfo.value.id).Ok?
             && exists i, j :: 0 <= i < |required| && 0 <= j < |lookup(userInfo.value.id).value|
                               && required[i] == lookup(userInfo.value.id).value[j])
  {
    var r := Gate(required, userInfo, lookup);
    if required == [] {
      EmptyRequirementPasses(userInfo, lookup);
    } else if userInfo.Some? {
      var id := userInfo.value.id;
      var roles := lookup(id);
      var held := if roles.Ok? then roles.value else [];
      var first := FirstHeld(required, held);
      if !IsZero(id) && roles.Ok? {
        if first.Some? {
          assert r.effects == [SetRole(required[first.value]), Next];
          assert r.effects[1].Next? && !r.effects[0].Abort?;
          assert HandlerRuns(r);
          var j :| 0 <= j < |held| && held[j] == required[first.value];
        } else {
          assert r.effects == [Abort(401, Unauthorized)];
          AbortFirstStops(r.effects);
        }
      } else {
        AbortFirstStops(r.effects);
      }
    }
  }

  /** The role stored is the first required role, in required-list order, that
      the user holds — also after an earlier abort. */
  lemma StoredRoleIsFirstHeld(required: seq<string>, info: UserInfo, lookup: ObjectId -> Result<seq<string>, string>)
    requires required != [] && lookup(info.id).Ok?
    ensures var r := Gate(required, Some(info), lookup);
            var first := FirstHeld(required, lookup(info.id).value);
            r.Run? && StoredRole(r.effects) == (if first.Some? then Some(required[first.value]) else None)
  {
    var r := Gate(required, Some(info), lookup);
    var first := FirstHeld(required, lookup(info.id).value);
    var prefix := if IsZero(info.id) then [Abort(401, Unauthorized)] else [];
    if first.Some? {
      assert r.effects == prefix + [SetRole(required[first.value]), Next];
      if prefix != [] {
        assert r.effects[1..] == [SetRole(required[first.value]), Next];
      }
    } else {
      assert r.effects == prefix + [Abort(401, Unauthorized)];
      if prefix != [] {
        assert r.effects[1..] == [Abort(401, Unauthorized)];
      }
    }
  }

  /** A zero id aborts with 401 but the gate carries on: it still asks for the
      roles, stores a matched role and calls `Next`, which then runs nothing. */
  lemma ZeroIdAbortDoesNotReturn(required: seq<string>, info: UserInfo, lookup: ObjectId -> Result<seq<string>, string>)
    requires IsZero(info.id) && lookup(info.id).Ok?
    requires required != [] && required[0] in lookup(info.id).value
    ensures Gate(required, Some(info), lookup) == Run([Abort(401, Unauthorized), SetRole(required[0]), Next])
    ensures !HandlerRuns(Gate(required, Some(info), lookup))
  {
    AbortFirstStops([Abort(401, Unauthorized), SetRole(required[0]), Next]);
  }
}
