/** A MongoDB collection as the repositories see it: the driver calls become
    functions of their arguments, and `Honest` says what MongoDB promises of
    them for a given set of stored documents. */
module Store {
  import opened Wrappers
  import opened Numbers
  import opened Query

  /** `Find(filter, options)` (decoding included) and `CountDocuments(filter)`;
      `Err` is any driver or decoding error. */
  datatype Collection<T> = Collection(
    find: (Filter, Option<FindOptions>) -> Result<seq<T>, string>,
    count: Filter -> Result<int64, string>)

  /** What `FindOne` decodes when `matches` is its filter: the first matching
      item in natural order. */
  function FirstMatch<T>(items: seq<T>, matches: T -> bool): (r: Option<nat>)
    ensures r.Some? ==> r.value < |items| && matches(items[r.value])
                        && forall j :: 0 <= j < r.value ==> !matches(items[j])
    ensures r.None? <==> forall j :: 0 <= j < |items| ==> !matches(items[j])
  {
    if |items| == 0 then None
    else if matches(items[0]) then Some(0)
    else
      match FirstMatch(items[1..], matches)
      case None => None
      case Some(k) => Some(k + 1)
  }

  /** How many stored items match `f`. */
  function CountMatching<T>(items: seq<T>, asDoc: T -> Doc, f: Filter, rx: Regexes): nat {
    if |items| == 0 then 0
    else (if EvalFilter(asDoc(items[0]), f, rx) == Some(true) then 1 else 0)
         + CountMatching(items[1..], asDoc, f, rx)
  }

  /** A collection holding `items`: a successful find returns stored items that
      match the filter, no more than a positive limit, and a successful count
      is the number of matching items. */
  ghost predicate Honest<T>(db: Collection<T>, items: seq<T>, asDoc: T -> Doc, rx: Regexes) {
    (forall f, o :: db.find(f, o).Ok? ==>
      (forall i :: 0 <= i < |db.find(f, o).value| ==>
        db.find(f, o).value[i] in items && EvalFilter(asDoc(db.find(f, o).value[i]), f, rx) == Some(true))
      && (o.Some? && o.value.limit > 0 ==> |db.find(f, o).value| <= o.value.limit))
    && (forall f :: db.count(f).Ok? ==> db.count(f).value == CountMatching(items, asDoc, f, rx))
  }

  /** The server refuses a query holding an empty `$and`/`$or`/`$nor` array:
      both the find and the count of such a filter fail. */
  ghost predicate RefusesMalformed<T>(db: Collection<T>) {
    (forall f, o :: !FilterWellFormed(f) ==> db.find(f, o).Err?)
    && (forall f :: !FilterWellFormed(f) ==> db.count(f).Err?)
  }

  /** The server refuses a query it cannot parse or whose patterns do not
      compile: one `Eval` gives no answer for. Whether a query is accepted
      does not depend on the document (`Query.AcceptedIff`), so the empty
      document stands for all. */
  ghost predicate RefusesUnaccepted<T>(db: Collection<T>, rx: Regexes) {
    (forall f, o :: EvalFilter(map[], f, rx).None? ==> db.find(f, o).Err?)
    && (forall f :: EvalFilter(map[], f, rx).None? ==> db.count(f).Err?)
  }
}
