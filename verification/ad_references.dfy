/** The ad-reference repository of models/shopping/shopping_repository.go:
    the filtered, paginated listing, the active-only listing, and lookup and
    deletion by id. */
module AdReferences {
  import opened Wrappers
  import opened Numbers
  import opened Query
  import opened Store
  import Pagination
  import FilterCompiler
  import ObjectIds

  datatype AdReference = AdReference(id: string, description: string, isActive: bool, createdAt: int, imageUrl: string)

  /** The stored document of an ad reference, by its bson field names. */
  function AsDoc(a: AdReference): Doc {
    map["_id" := SId(a.id), "description" := SStr(a.description), "is_active" := SBool(a.isActive),
        "created_at" := SDate(a.createdAt), "image_url" := SStr(a.imageUrl)]
  }

  datatype Paginated = Paginated(total: int64, page: int64, perPage: int64, data: seq<AdReference>)

  /** The sort and window of a filtered listing. */
  function ListingOptions(req: FilterCompiler.FilterRequest): FindOptions {
    Pagination.Options(
      Sort(Pagination.SortField(req.sort), Pagination.Direction(req.isAscending)), req.page, req.pageSize)
  }

  /** `GetFilteredAdReferences`: a find error is returned, while a count error
      is dropped: the listing then reports a total of 0 and no error. */
  function GetFilteredAdReferences(req: FilterCompiler.FilterRequest, db: Collection<AdReference>): (r: Result<Paginated, string>)
    ensures r.Ok? <==> db.find(FilterCompiler.GetFilter(req), Some(ListingOptions(req))).Ok?
    ensures r.Ok? && db.count(FilterCompiler.GetFilter(req)).Err? ==> r.value.total == 0
    ensures r.Ok? ==> r.value.page == Pagination.ClampPageAsWritten(req.page) && r.value.perPage == req.pageSize
  {
    var filter := FilterCompiler.GetFilter(req);
    match db.find(filter, Some(ListingOptions(req)))
    case Err(e) => Err(e)
    case Ok(data) =>
      var total := match db.count(filter) case Ok(n) => n case Err(_) => 0;
      Ok(Paginated(total, Pagination.ClampPageAsWritten(req.page), req.pageSize, data))
  }

  /** Against an honest collection the listing holds only stored ads that match
      the compiled filter, at most a positive page size of them, and its total
      counts every matching ad whenever counting succeeded: find and count use
      the same filter. */
  lemma ListingMatchesFilter(req: FilterCompiler.FilterRequest, db: Collection<AdReference>, store: seq<AdReference>, rx: Regexes)
    requires Honest(db, store, AsDoc, rx)
    requires GetFilteredAdReferences(req, db).Ok?
    ensures var p := GetFilteredAdReferences(req, db).value;
      (forall i :: 0 <= i < |p.data| ==>
         p.data[i] in store && EvalFilter(AsDoc(p.data[i]), FilterCompiler.GetFilter(req), rx) == Some(true))
      && (req.pageSize > 0 ==> |p.data| <= req.pageSize)
      && (db.count(FilterCompiler.GetFilter(req)).Ok? ==> p.total == CountMatching(store, AsDoc, FilterCompiler.GetFilter(req), rx))
  {
    var f := FilterCompiler.GetFilter(req);
    var o := Some(ListingOptions(req));
    assert db.find(f, o).Ok?;
  }

  /** The `GetAdReferences` query: active ads only. */
  const ActiveFilter: Filter := Filter(Some([Equals("is_active", SBool(true))]))

  /** `GetAdReferences`: every ad the query returns, with no paging. */
  function GetAdReferences(db: Collection<AdReference>): Result<seq<AdReference>, string> {
    db.find(ActiveFilter, None)
  }

  /** A stored ad is selected iff it is active. */
  lemma ActiveFilterSelectsActive(a: AdReference, rx: Regexes)
    ensures EvalFilter(AsDoc(a), ActiveFilter, rx) == Some(true) <==> a.isActive
  {
    assert Lookup(AsDoc(a), "is_active") == SBool(a.isActive);
  }

  /** Against an honest collection `GetAdReferences` returns active stored ads only. */
  lemma GetAdReferencesActive(db: Collection<AdReference>, store: seq<AdReference>, rx: Regexes)
    requires Honest(db, store, AsDoc, rx)
    ensures GetAdReferences(db).Ok? ==>
      forall i :: 0 <= i < |GetAdReferences(db).value| ==>
        GetAdReferences(db).value[i].isActive && GetAdReferences(db).value[i] in store
  {
    if GetAdReferences(db).Ok? {
      var data := GetAdReferences(db).value;
      forall i | 0 <= i < |data|
        ensures data[i].isActive && data[i] in store
      {
        assert db.find(ActiveFilter, None).value[i] == data[i];
        ActiveFilterSelectsActive(data[i], rx);
      }
    }
  }

  /** The id query `{"_id": ObjectID}` for a canonical hex id. */
  function ById(id: ObjectIds.ObjectId): Cond {
    Equals("_id", SId(id))
  }

  /** `GetAdReference`: an id that is not 24 hex digits is `ObjectIDFromHex`'s
      error before `findOne` is consulted; otherwise the lookup's own answer. */
  function GetAdReference(id: string, findOne: Cond -> Result<AdReference, string>): (r: Result<AdReference, string>)
    ensures !ObjectIds.IsHex(id) ==> r.Err? && ObjectIds.ObjectIdFromHex(id) == Err(r.error)
    ensures ObjectIds.Utf8Length(id) != 24 ==> r == Err(ObjectIds.ErrInvalidHex)
    ensures ObjectIds.IsHex(id) ==> r == findOne(ById(ObjectIds.FromHex(id).value))
  {
    match ObjectIds.ObjectIdFromHex(id)
    case Err(e) => Err(e)
    case Ok(oid) => findOne(ById(oid))
  }

  /** `DeleteAdReference`: the same id check, then the deletion's own error. */
  function DeleteAdReference(id: string, deleteOne: Cond -> Option<string>): (err: Option<string>)
    ensures !ObjectIds.IsHex(id) ==> err.Some? && ObjectIds.ObjectIdFromHex(id) == Err(err.value)
    ensures ObjectIds.Utf8Length(id) != 24 ==> err == Some(ObjectIds.ErrInvalidHex)
    ensures ObjectIds.IsHex(id) ==> err == deleteOne(ById(ObjectIds.FromHex(id).value))
  {
    match ObjectIds.ObjectIdFromHex(id)
    case Err(e) => Some(e)
    case Ok(oid) => deleteOne(ById(oid))
  }

  /** No query is issued for a malformed id: the answer does not depend on the
      collection at all, in both get and delete. */
  lemma MalformedIdNeverQueries(id: string,
      find1: Cond -> Result<AdReference, string>, find2: Cond -> Result<AdReference, string>,
      del1: Cond -> Option<string>, del2: Cond -> Option<string>)
    requires !ObjectIds.IsHex(id)
    ensures GetAdReference(id, find1) == GetAdReference(id, find2)
    ensures DeleteAdReference(id, del1) == DeleteAdReference(id, del2)
  {
  }

  /** Upper- and lower-case spellings of an id query the same document. */
  lemma IdCaseInsensitive(id: string, findOne: Cond -> Result<AdReference, string>)
    requires ObjectIds.IsHex(id)
    ensures GetAdReference(id, findOne) == GetAdReference(Strings.ToLower(id), findOne)
  {
    ObjectIds.FromHexOfHex(ObjectIds.FromHex(id).value);
    Strings.ToLowerIdempotent(id);
  }

  import Strings
}
