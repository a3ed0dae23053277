/** The role catalogue of models/roles/roles_repository.go: a read-through
    cache (key `roles`, no expiry) in front of the `roles` collection. */
module RolesRepository {
  import opened Wrappers

  /** A catalogue role; its id is the hex text of an object id. */
  datatype Role = Role(id: string, name: string)

  /** The cache entry under key `roles`: absent, a JSON list, or bytes that do
      not decode (`error` is the decoder's message). */
  datatype Entry = Missing | Cached(roles: seq<Role>) | Undecodable(error: string)

  /** The two stores. */
  datatype State = State(cache: Entry, store: seq<Role>)

  /** The errors one `GetRoles` call meets: `cacheConnect` on connecting to the
      cache for reading, `cacheRead` a `GET` error other than a missing key,
      `find` on connecting to or reading the collection, `cacheWrite` on
      connecting to the cache for writing or on the `SET`. */
  datatype Faults = Faults(cacheConnect: Option<string>, cacheRead: Option<string>,
                           find: Option<string>, cacheWrite: Option<string>)

  const NoFaults: Faults := Faults(None, None, None, None)

  /** `getRolesFromCache`: a missing key is an empty list and no error. */
  function GetRolesFromCache(cache: Entry, faults: Faults): (r: Result<seq<Role>, string>)
    ensures faults.cacheConnect.Some? || faults.cacheRead.Some? || cache.Undecodable? <==> r.Err?
    ensures r.Ok? && cache.Missing? ==> r.value == []
    ensures r.Ok? && cache.Cached? ==> r.value == cache.roles
  {
    if faults.cacheConnect.Some? then Err(faults.cacheConnect.value)
    else if faults.cacheRead.Some? then Err(faults.cacheRead.value)
    else
      match cache
      case Missing => Ok([])
      case Undecodable(e) => Err(e)
      case Cached(roles) => Ok(roles)
  }

  /** `setCacheRoles`: the list is written under `roles` with no expiry;
      `None` is success. */
  function SetCacheRoles(cache: Entry, roles: seq<Role>, faults: Faults): (r: (Entry, Option<string>))
    ensures r.1.None? <==> faults.cacheWrite.None?
    ensures r.1.None? ==> r.0 == Cached(roles)
    ensures r.1.Some? ==> r.0 == cache
  {
    if faults.cacheWrite.Some? then (cache, faults.cacheWrite) else (Cached(roles), None)
  }

  /** `GetRoles`: a non-empty cached list is the answer; otherwise the
      collection is read and the result written to the cache, whose own error
      is dropped. */
  function GetRoles(s: State, faults: Faults): (r: (Result<seq<Role>, string>, State))
    ensures r.1.store == s.store
    ensures r.0.Ok? ==> r.0.value == s.store || (s.cache.Cached? && r.0.value == s.cache.roles)
  {
    match GetRolesFromCache(s.cache, faults)
    case Err(e) => (Err(e), s)
    case Ok(cached) =>
      if |cached| > 0 then (Ok(cached), s)
      else if faults.find.Some? then (Err(faults.find.value), s)
      else
        var roles := s.store;
        var (cache', _) := SetCacheRoles(s.cache, roles, faults);
        (Ok(roles), s.(cache := cache'))
  }

  /** A cache error is returned as it is: the collection is not consulted and
      nothing changes. */
  lemma CacheErrorReturned(s: State, faults: Faults, other: seq<Role>)
    requires faults.cacheConnect.Some? || faults.cacheRead.Some? || s.cache.Undecodable?
    ensures GetRoles(s, faults).0.Err? && GetRoles(s, faults).1 == s
    ensures GetRoles(s, faults).0 == GetRoles(s.(store := other), faults).0
  {
  }

  /** A non-empty cached list is returned without touching the collection, so
      it is returned whatever the collection now holds. */
  lemma CacheHitSkipsStore(s: State, faults: Faults, other: seq<Role>)
    requires faults.cacheConnect.None? && faults.cacheRead.None?
    requires s.cache.Cached? && |s.cache.roles| > 0
    ensures GetRoles(s, faults) == (Ok(s.cache.roles), s)
    ensures GetRoles(s.(store := other), faults).0 == Ok(s.cache.roles)
  {
  }

  /** A missing key, or an empty cached list, sends the call to the collection;
      its roles are returned, and cached unless the cache write fails — a
      failure that goes unreported. */
  lemma MissReadsStore(s: State, faults: Faults)
    requires faults.cacheConnect.None? && faults.cacheRead.None? && faults.find.None?
    requires s.cache.Missing? || s.cache == Cached([])
    ensures GetRoles(s, faults).0 == Ok(s.store)
    ensures GetRoles(s, faults).1.cache == (if faults.cacheWrite.None? then Cached(s.store) else s.cache)
  {
  }

  /** Read-through: once a non-empty catalogue is cached, a later call returns
      it even after the collection has changed — the entry never expires. An
      empty catalogue is cached as an empty list, which counts as a miss. */
  lemma ReadThrough(s: State, first: Faults, later: seq<Role>)
    requires first.cacheConnect.None? && first.cacheRead.None? && first.find.None? && first.cacheWrite.None?
    requires s.cache.Missing?
    ensures var s1 := GetRoles(s, first).1;
            (|s.store| > 0 ==> GetRoles(s1.(store := later), NoFaults).0 == Ok(s.store))
            && (|s.store| == 0 ==> GetRoles(s1.(store := later), NoFaults).0 == Ok(later))
  {
  }
}
