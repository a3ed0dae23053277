/** The MongoDB query documents (`bson.M`) the repositories build, as a tree,
    with the part of MongoDB's matching semantics the properties need. */
module Query {
  import opened Wrappers

  /** A value inside a query or a document. `SDate` is a `primitive.DateTime`
      (milliseconds since the epoch); `SId` an object id in hex. */
  datatype Scalar = SStr(s: string) | SInt(i: int) | SBool(b: bool) | SDate(millis: int) | SId(hex: string) | SNull

  datatype Cond =
    | Regex(field: string, pattern: string)        // {field: {"$regex": pattern, "$options": "i"}}
    | EqOp(field: string, value: Scalar)           // {field: {"$eq": value}}
    | Equals(field: string, value: Scalar)         // {field: value}
    | NotEq(field: string, value: Scalar)          // {field: {"$ne": value}}
    | In(field: string, values: seq<string>)       // {field: {"$in": values}}
    | Range(field: string, lo: Scalar, hi: Scalar) // {field: {"$gte": lo, "$lte": hi}}
    | Combine(key: string, items: seq<Cond>)       // {key: items}, key being "$and", "$or", ...

  /** A top-level filter: `bson.M{}` when `and` is `None`, otherwise
      `bson.M{"$and": and.value}`. */
  datatype Filter = Filter(and: Option<seq<Cond>>)

  const Empty: Filter := Filter(None)

  /** MongoDB refuses `$and`/`$or`/`$nor` with an empty array ("must be a
      nonempty array"); a well-formed tree has none. A `$comment` is ignored
      whatever it holds. */
  predicate WellFormed(c: Cond) {
    match c
    case Combine(key, items) => key == "$comment" || (|items| > 0 && forall i :: 0 <= i < |items| ==> WellFormed(items[i]))
    case _ => true
  }

  predicate AllWellFormed(cs: seq<Cond>) {
    forall i :: 0 <= i < |cs| ==> WellFormed(cs[i])
  }

  lemma AllWellFormedAppend(a: seq<Cond>, b: seq<Cond>)
    ensures AllWellFormed(a + b) <==> AllWellFormed(a) && AllWellFormed(b)
  {
    assert forall i :: 0 <= i < |a| ==> (a + b)[i] == a[i];
    assert forall i :: |a| <= i < |a + b| ==> (a + b)[i] == b[i - |a|];
    if AllWellFormed(a + b) {
      assert forall i :: 0 <= i < |b| ==> b[i] == (a + b)[i + |a|];
    }
  }

  predicate FilterWellFormed(f: Filter) {
    f.and.Some? ==> |f.and.value| > 0 && AllWellFormed(f.and.value)
  }

  /** A stored document: field name to value (array fields are not modelled). */
  type Doc = map<string, Scalar>

  /** A missing field reads as null, as MongoDB's equality matching treats it. */
  function Lookup(doc: Doc, field: string): Scalar {
    if field in doc then doc[field] else SNull
  }

  /** `lo <= x <= hi` between values of the same comparable kind. */
  predicate InRange(x: Scalar, lo: Scalar, hi: Scalar) {
    (x.SInt? && lo.SInt? && hi.SInt? && lo.i <= x.i <= hi.i)
    || (x.SDate? && lo.SDate? && hi.SDate? && lo.millis <= x.millis <= hi.millis)
  }

  /** The server's regular-expression engine, which is not modelled:
      `compiles(p)` is whether MongoDB accepts `p` as a `$regex` (it refuses
      the whole query otherwise, "Regular expression is invalid"), and
      `search(p, text)` is the case-insensitive search. */
  datatype Regexes = Regexes(compiles: string -> bool, search: (string, string) -> bool)

  /** Whether `doc` matches `c`; `None` when the server refuses the query: a
      pattern that does not compile, an unknown operator or an empty logical
      array. A `$comment` is accepted and ignored, whatever it holds. */
  function Eval(doc: Doc, c: Cond, rx: Regexes): Option<bool>
    decreases c, 1
  {
    match c
    case Regex(f, p) => if rx.compiles(p) then Some(Lookup(doc, f).SStr? && rx.search(p, Lookup(doc, f).s)) else None
    case EqOp(f, v) => Some(Lookup(doc, f) == v)
    case Equals(f, v) => Some(Lookup(doc, f) == v)
    case NotEq(f, v) => Some(Lookup(doc, f) != v)
    case In(f, vs) => Some(Lookup(doc, f).SStr? && Lookup(doc, f).s in vs)
    case Range(f, lo, hi) => Some(InRange(Lookup(doc, f), lo, hi))
    case Combine(key, items) =>
      if key == "$comment" then Some(true)
      else if |items| == 0 then None
      else if key == "$and" then EvalAll(doc, c, items, rx)
      else if key == "$or" then
        (match EvalAny(doc, c, items, rx) case Some(b) => Some(b) case None => None)
      else if key == "$nor" then
        (match EvalAny(doc, c, items, rx) case Some(b) => Some(!b) case None => None)
      else None
  }

  /** Conjunction of the items; `None` if any item is refused. */
  function EvalAll(doc: Doc, parent: Cond, items: seq<Cond>, rx: Regexes): Option<bool>
    requires forall i :: 0 <= i < |items| ==> items[i] < parent
    decreases parent, 0, |items|
  {
    if |items| == 0 then Some(true)
    else
      match (Eval(doc, items[0], rx), EvalAll(doc, parent, items[1..], rx))
      case (Some(a), Some(b)) => Some(a && b)
      case _ => None
  }

  /** Disjunction of the items; `None` if any item is refused. */
  function EvalAny(doc: Doc, parent: Cond, items: seq<Cond>, rx: Regexes): Option<bool>
    requires forall i :: 0 <= i < |items| ==> items[i] < parent
    decreases parent, 0, |items|
  {
    if |items| == 0 then Some(false)
    else
      match (Eval(doc, items[0], rx), EvalAny(doc, parent, items[1..], rx))
      case (Some(a), Some(b)) => Some(a || b)
      case _ => None
  }

  /** `$and` is refused iff some item is refused, and holds iff every item holds. */
  lemma {:induction false} EvalAllIff(doc: Doc, parent: Cond, items: seq<Cond>, rx: Regexes)
    requires forall i :: 0 <= i < |items| ==> items[i] < parent
    ensures EvalAll(doc, parent, items, rx).Some? <==> forall i :: 0 <= i < |items| ==> Eval(doc, items[i], rx).Some?
    ensures EvalAll(doc, parent, items, rx) == Some(true) <==> forall i :: 0 <= i < |items| ==> Eval(doc, items[i], rx) == Some(true)
    decreases |items|
  {
    if |items| > 0 {
      EvalAllIff(doc, parent, items[1..], rx);
      assert forall i :: 1 <= i < |items| ==> items[i] == items[1..][i - 1];
    }
  }

  /** `$or` is refused iff some item is refused, and otherwise holds iff some item holds. */
  lemma {:induction false} EvalAnyIff(doc: Doc, parent: Cond, items: seq<Cond>, rx: Regexes)
    requires forall i :: 0 <= i < |items| ==> items[i] < parent
    ensures EvalAny(doc, parent, items, rx).Some? <==> forall i :: 0 <= i < |items| ==> Eval(doc, items[i], rx).Some?
    ensures EvalAny(doc, parent, items, rx).Some? ==>
      (EvalAny(doc, parent, items, rx) == Some(true) <==> exists i :: 0 <= i < |items| && Eval(doc, items[i], rx) == Some(true))
    decreases |items|
  {
    if |items| > 0 {
      EvalAnyIff(doc, parent, items[1..], rx);
      assert forall i :: 1 <= i < |items| ==> items[i] == items[1..][i - 1];
      if EvalAny(doc, parent, items, rx) == Some(true) && Eval(doc, items[0], rx) != Some(true) {
        var i :| 0 <= i < |items[1..]| && Eval(doc, items[1..][i], rx) == Some(true);
        assert Eval(doc, items[i + 1], rx) == Some(true);
      }
    }
  }

  /** Whether the server accepts `c`, whatever the document: every pattern
      compiles, every operator is one it knows and every logical array is
      non-empty; a `$comment` is accepted whatever it holds. */
  predicate Accepted(c: Cond, rx: Regexes) {
    match c
    case Regex(_, p) => rx.compiles(p)
    case Combine(key, items) =>
      key == "$comment"
      || (key in {"$and", "$or", "$nor"} && |items| > 0 && forall i :: 0 <= i < |items| ==> Accepted(items[i], rx))
    case _ => true
  }

  /** The server refuses a query iff it is not `Accepted`; in particular
      whether it refuses never depends on the document. */
  lemma {:induction false} AcceptedIff(doc: Doc, c: Cond, rx: Regexes)
    ensures Eval(doc, c, rx).Some? <==> Accepted(c, rx)
  {
    match c
    case Combine(key, items) =>
      if key != "$comment" && |items| > 0 {
        forall i | 0 <= i < |items|
          ensures Eval(doc, items[i], rx).Some? <==> Accepted(items[i], rx)
        {
          AcceptedIff(doc, items[i], rx);
        }
        EvalAllIff(doc, c, items, rx);
        EvalAnyIff(doc, c, items, rx);
      }
    case _ =>
  }

  predicate AllAccepted(cs: seq<Cond>, rx: Regexes) {
    forall i :: 0 <= i < |cs| ==> Accepted(cs[i], rx)
  }

  lemma AllAcceptedAppend(a: seq<Cond>, b: seq<Cond>, rx: Regexes)
    ensures AllAccepted(a + b, rx) <==> AllAccepted(a, rx) && AllAccepted(b, rx)
  {
    assert forall i :: 0 <= i < |a| ==> (a + b)[i] == a[i];
    assert forall i :: |a| <= i < |a + b| ==> (a + b)[i] == b[i - |a|];
    if AllAccepted(a + b, rx) {
      assert forall i :: 0 <= i < |b| ==> b[i] == (a + b)[i + |a|];
    }
  }

  /** A top-level `$and` filter is accepted iff each of its conditions is. */
  lemma FilterAcceptedIff(doc: Doc, cs: seq<Cond>, rx: Regexes)
    requires |cs| > 0
    ensures EvalFilter(doc, Filter(Some(cs)), rx).Some? <==> AllAccepted(cs, rx)
  {
    AcceptedIff(doc, Combine("$and", cs), rx);
  }

  /** A document matching an `$and` matches each of its items. */
  lemma AndHoldsEach(doc: Doc, items: seq<Cond>, rx: Regexes)
    requires Eval(doc, Combine("$and", items), rx) == Some(true)
    ensures forall c :: c in items ==> Eval(doc, c, rx) == Some(true)
  {
    EvalAllIff(doc, Combine("$and", items), items, rx);
  }

  /** A document matching a top-level `$and` filter matches each of its conditions. */
  lemma FilterHoldsEach(doc: Doc, cs: seq<Cond>, rx: Regexes)
    requires EvalFilter(doc, Filter(Some(cs)), rx) == Some(true)
    ensures forall c :: c in cs ==> Eval(doc, c, rx) == Some(true)
  {
    AndHoldsEach(doc, cs, rx);
  }

  /** The whole filter: the empty filter matches every document. */
  function EvalFilter(doc: Doc, f: Filter, rx: Regexes): Option<bool> {
    match f.and
    case None => Some(true)
    case Some(cs) => Eval(doc, Combine("$and", cs), rx)
  }

  /** Sort specification `bson.M{field: direction}` (1 ascending, -1 descending). */
  datatype Sort = Sort(field: string, direction: int)

  /** `options.Find().SetSort(..).SetSkip(..).SetLimit(..)`. */
  datatype FindOptions = FindOptions(sort: Sort, skip: int, limit: int)
}
