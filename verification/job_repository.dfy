/** The job repository of models/jobs/job_repository.go: the `GetJobs`
    condition list and window, the distinct-value lookups, short-code
    generation and short URLs, and the `CreateJob` defaults. */
module JobRepository {
  import opened Wrappers
  import opened Numbers
  import opened Query
  import opened Store
  import Strings
  import RegexEscape
  import ObjectIds
  import Pagination

  // ---- title words -----------------------------------------------------------

  /** The words of a title: `strings.Fields(strings.TrimSpace(title))`. */
  function TitleWords(title: string): seq<string> {
    Strings.Fields(Strings.TrimSpace(title))
  }

  /** One case-insensitive `title` regex per word, each word trimmed and escaped. */
  function TitleRegexes(words: seq<string>): (cs: seq<Cond>)
    ensures |cs| == |words|
  {
    seq(|words|, i requires 0 <= i < |words| => Regex("title", RegexEscape.QuoteMeta(Strings.TrimSpace(words[i]))))
  }

  /** The title block as written: `{"$and": regexes}` for any non-empty title,
      even one whose words are none. */
  function TitleConditionsAsWritten(title: string): seq<Cond> {
    if title != "" then [Combine("$and", TitleRegexes(TitleWords(title)))] else []
  }

  /** The evidently intended title block: present only when there are words. */
  function TitleConditions(title: string): seq<Cond> {
    var words := TitleWords(title);
    if |words| > 0 then [Combine("$and", TitleRegexes(words))] else []
  }

  /** Each title word becomes one literal pattern, in order: the pattern is
      the escaped word, it holds only literal tokens, and reading it back
      gives the word. */
  lemma TitlePatternsAreWords(title: string)
    ensures |TitleRegexes(TitleWords(title))| == |TitleWords(title)|
    ensures forall i :: 0 <= i < |TitleWords(title)| ==>
      var c := TitleRegexes(TitleWords(title))[i];
      c.Regex? && c.field == "title" && c.pattern == RegexEscape.QuoteMeta(TitleWords(title)[i])
      && RegexEscape.Literal(c.pattern) && RegexEscape.Unquote(c.pattern) == TitleWords(title)[i]
      && |TitleWords(title)[i]| > 0 && Strings.NoSpace(TitleWords(title)[i])
  {
    var words := TitleWords(title);
    Strings.FieldsAreWords(Strings.TrimSpace(title));
    forall i | 0 <= i < |words|
      ensures TitleRegexes(words)[i] == Regex("title", RegexEscape.QuoteMeta(words[i]))
      ensures Strings.TrimSpace(words[i]) == words[i]
      ensures RegexEscape.Literal(RegexEscape.QuoteMeta(words[i]))
      ensures RegexEscape.Unquote(RegexEscape.QuoteMeta(words[i])) == words[i]
    {
      Strings.TrimSpaceOfWord(words[i]);
      RegexEscape.QuoteMetaLiteral(words[i]);
      RegexEscape.UnquoteQuoteMeta(words[i]);
    }
  }

  /** A title has words iff it has a non-space character. */
  lemma TitleHasWords(title: string)
    ensures |TitleWords(title)| > 0 <==> Strings.Squeeze(title) != ""
  {
    Strings.FieldsEmptyIff(Strings.TrimSpace(title));
    Strings.TrimSpaceSqueeze(title);
  }

  /** The two title blocks agree except on a non-empty title made only of
      white space, where the code emits an empty `$and`. */
  lemma TitleConditionsAgree(title: string)
    ensures TitleConditionsAsWritten(title) == TitleConditions(title)
      <==> !(title != "" && Strings.Squeeze(title) == "")
  {
    TitleHasWords(title);
  }

  /** A title of one space: the block is `{"$and": []}`, which MongoDB refuses
      ("$and/$or/$nor must be a nonempty array"). */
  lemma BlankTitleIsRefused(doc: Doc, rx: Regexes)
    ensures TitleConditionsAsWritten(" ") == [Combine("$and", [])]
    ensures !AllWellFormed(TitleConditionsAsWritten(" "))
    ensures Eval(doc, TitleConditionsAsWritten(" ")[0], rx) == None
  {
    assert " "[1..] == "";
    assert Strings.TrimLeft(" ") == "";
    assert TitleWords(" ") == [];
    assert TitleRegexes([]) == [];
    assert !WellFormed(TitleConditionsAsWritten(" ")[0]);
  }

  /** The corrected block is always well formed. */
  lemma TitleConditionsWellFormed(title: string)
    ensures AllWellFormed(TitleConditions(title))
  {
  }

  /** MongoDB compiles every escaped title word. */
  predicate TitleWordsCompile(title: string, rx: Regexes) {
    forall i :: 0 <= i < |TitleWords(title)| ==> rx.compiles(RegexEscape.QuoteMeta(TitleWords(title)[i]))
  }

  /** A regex engine that accepts every pattern made only of literal tokens. */
  ghost predicate CompilesLiterals(rx: Regexes) {
    forall p :: RegexEscape.Literal(p) ==> rx.compiles(p)
  }

  /** Escaping is what makes a title safe: an engine that compiles literal
      patterns compiles every title word. */
  lemma EscapedTitleCompiles(title: string, rx: Regexes)
    requires CompilesLiterals(rx)
    ensures TitleWordsCompile(title, rx)
  {
    TitlePatternsAreWords(title);
  }

  /** The corrected block is accepted iff every escaped word compiles. */
  lemma TitleConditionsAccepted(title: string, rx: Regexes)
    ensures AllAccepted(TitleConditions(title), rx) <==> TitleWordsCompile(title, rx)
  {
    var words := TitleWords(title);
    if |words| > 0 {
      var regs := TitleRegexes(words);
      TitlePatternsAreWords(title);
      assert TitleConditions(title) == [Combine("$and", regs)];
      assert AllAccepted(TitleConditions(title), rx) <==> Accepted(Combine("$and", regs), rx) by {
        assert |TitleConditions(title)| == 1 && TitleConditions(title)[0] == Combine("$and", regs);
      }
      assert Accepted(Combine("$and", regs), rx) <==> forall i :: 0 <= i < |regs| ==> Accepted(regs[i], rx);
      forall i | 0 <= i < |regs|
        ensures Accepted(regs[i], rx) <==> rx.compiles(RegexEscape.QuoteMeta(words[i]))
      {
      }
    }
  }

  /** The block as written is accepted iff the title is not a non-empty run of
      white space and every escaped word compiles. */
  lemma TitleConditionsAsWrittenAccepted(title: string, rx: Regexes)
    ensures AllAccepted(TitleConditionsAsWritten(title), rx)
      <==> !(title != "" && Strings.Squeeze(title) == "") && TitleWordsCompile(title, rx)
  {
    TitleConditionsAgree(title);
    TitleConditionsAccepted(title, rx);
    TitleHasWords(title);
    if title != "" && Strings.Squeeze(title) == "" {
      assert TitleConditionsAsWritten(title)[0] == Combine("$and", []);
      assert !Accepted(TitleConditionsAsWritten(title)[0], rx);
    }
  }

  // ---- the GetJobs condition list -------------------------------------------

  datatype JobFilterOptions = JobFilterOptions(companies: seq<string>, locations: seq<string>, providers: seq<string>, salaries: seq<string>)

  datatype JobFilter = JobFilter(
    page: int64, pageSize: int64, title: string, company: string, location: string, salary: string,
    provider: string, ids: seq<string>, creatorId: ObjectIds.ObjectId, options: JobFilterOptions)

  /** `appendCondition`: a raw (unescaped) case-insensitive regex, only for a
      non-empty value. */
  function AppendCondition(conds: seq<Cond>, field: string, value: string): (r: seq<Cond>)
    ensures value == "" ==> r == conds
    ensures value != "" ==> |r| == |conds| + 1 && r[..|conds|] == conds && r[|conds|] == Regex(field, value)
    ensures AllWellFormed(conds) ==> AllWellFormed(r)
  {
    AllWellFormedAppend(conds, [Regex(field, value)]);
    if value != "" then conds + [Regex(field, value)] else conds
  }

  /** `appendInCondition`: a one-element `$and` around an `$in`, only for a
      non-empty list. */
  function AppendInCondition(conds: seq<Cond>, field: string, values: seq<string>): (r: seq<Cond>)
    ensures |values| == 0 ==> r == conds
    ensures |values| > 0 ==> |r| == |conds| + 1 && r[..|conds|] == conds && r[|conds|] == Combine("$and", [In(field, values)])
    ensures AllWellFormed(conds) ==> AllWellFormed(r)
  {
    assert WellFormed(Combine("$and", [In(field, values)]));
    AllWellFormedAppend(conds, [Combine("$and", [In(field, values)])]);
    if |values| > 0 then conds + [Combine("$and", [In(field, values)])] else conds
  }

  /** The fixed approval flags and the optional creator condition. */
  function FlagConditions(creatorId: ObjectIds.ObjectId): (r: seq<Cond>)
    ensures |r| >= 2 && AllWellFormed(r)
  {
    [Equals("is_approved", SBool(true)), Equals("is_closed", SBool(false))]
    + (if !ObjectIds.IsZero(creatorId) then [Equals("creator", SId(creatorId))] else [])
  }

  /** The optional conditions after the title block, in the order the code appends them. */
  function AppendedConditions(body: JobFilter): (r: seq<Cond>)
    ensures AllWellFormed(r)
  {
    var c := [];
    var c := AppendCondition(c, "company_name", body.company);
    var c := AppendCondition(c, "location", body.location);
    var c := AppendCondition(c, "salary", body.salary);
    var c := AppendCondition(c, "provider", body.provider);
    var c := AppendInCondition(c, "_id", body.ids);
    var c := AppendInCondition(c, "company_name", body.options.companies);
    var c := AppendInCondition(c, "location", body.options.locations);
    var c := AppendInCondition(c, "provider", body.options.providers);
    AppendInCondition(c, "salary", body.options.salaries)
  }

  /** Every condition after the title block. */
  function OtherConditions(body: JobFilter): seq<Cond> {
    AppendedConditions(body) + FlagConditions(body.creatorId)
  }

  /** The `GetJobs` query as written: always a `$and`. */
  function JobsFilterAsWritten(body: JobFilter): Filter {
    Filter(Some(TitleConditionsAsWritten(body.title) + OtherConditions(body)))
  }

  /** The `GetJobs` query with the corrected title block. */
  function JobsFilter(body: JobFilter): Filter {
    Filter(Some(TitleConditions(body.title) + OtherConditions(body)))
  }

  lemma OtherConditionsWellFormed(body: JobFilter)
    ensures |OtherConditions(body)| >= 2 && AllWellFormed(OtherConditions(body))
  {
    AllWellFormedAppend(AppendedConditions(body), FlagConditions(body.creatorId));
  }

  lemma TitleConditionsAsWrittenWellFormed(title: string)
    ensures AllWellFormed(TitleConditionsAsWritten(title)) <==> !(title != "" && Strings.Squeeze(title) == "")
  {
    TitleHasWords(title);
    var regs := TitleRegexes(TitleWords(title));
    assert AllWellFormed(regs);
    if title != "" {
      assert TitleConditionsAsWritten(title)[0] == Combine("$and", regs);
    }
  }

  /** The code's query holds no empty logical array iff the title is not a
      non-empty run of white space. Pattern compilation is a further
      condition, see `JobsFilterAsWrittenAccepted`. */
  lemma JobsFilterAsWrittenWellFormed(body: JobFilter)
    ensures FilterWellFormed(JobsFilterAsWritten(body)) <==> !(body.title != "" && Strings.Squeeze(body.title) == "")
  {
    OtherConditionsWellFormed(body);
    TitleConditionsAsWrittenWellFormed(body.title);
    AllWellFormedAppend(TitleConditionsAsWritten(body.title), OtherConditions(body));
  }

  /** The corrected query never holds an empty logical array; whether its
      patterns compile is `JobsFilterAccepted`'s concern. */
  lemma JobsFilterWellFormed(body: JobFilter)
    ensures FilterWellFormed(JobsFilter(body))
  {
    OtherConditionsWellFormed(body);
    TitleConditionsWellFormed(body.title);
    AllWellFormedAppend(TitleConditions(body.title), OtherConditions(body));
  }

  /** A raw pattern the code would send (a non-empty value) compiles. */
  predicate RawCompiles(value: string, rx: Regexes) {
    value != "" ==> rx.compiles(value)
  }

  /** The four raw filter values, sent unescaped, all compile. */
  predicate RawPatternsCompile(body: JobFilter, rx: Regexes) {
    RawCompiles(body.company, rx) && RawCompiles(body.location, rx)
    && RawCompiles(body.salary, rx) && RawCompiles(body.provider, rx)
  }

  lemma AppendConditionAccepted(conds: seq<Cond>, field: string, value: string, rx: Regexes)
    ensures AllAccepted(AppendCondition(conds, field, value), rx) <==> AllAccepted(conds, rx) && RawCompiles(value, rx)
  {
    AllAcceptedAppend(conds, [Regex(field, value)], rx);
  }

  lemma AppendInConditionAccepted(conds: seq<Cond>, field: string, values: seq<string>, rx: Regexes)
    ensures AllAccepted(AppendInCondition(conds, field, values), rx) <==> AllAccepted(conds, rx)
  {
    var extra := Combine("$and", [In(field, values)]);
    assert Accepted(extra, rx) by { assert Accepted(In(field, values), rx); }
    AllAcceptedAppend(conds, [extra], rx);
  }

  /** The appended conditions are accepted iff the raw company, location,
      salary and provider patterns compile; the `$in` lists never fail. */
  lemma {:induction false} AppendedConditionsAccepted(body: JobFilter, rx: Regexes)
    ensures AllAccepted(AppendedConditions(body), rx) <==> RawPatternsCompile(body, rx)
  {
    var c0: seq<Cond> := [];
    var c1 := AppendCondition(c0, "company_name", body.company);
    var c2 := AppendCondition(c1, "location", body.location);
    var c3 := AppendCondition(c2, "salary", body.salary);
    var c4 := AppendCondition(c3, "provider", body.provider);
    var c5 := AppendInCondition(c4, "_id", body.ids);
    var c6 := AppendInCondition(c5, "company_name", body.options.companies);
    var c7 := AppendInCondition(c6, "location", body.options.locations);
    var c8 := AppendInCondition(c7, "provider", body.options.providers);
    var c9 := AppendInCondition(c8, "salary", body.options.salaries);
    assert AppendedConditions(body) == c9;
    AppendConditionAccepted(c0, "company_name", body.company, rx);
    AppendConditionAccepted(c1, "location", body.location, rx);
    AppendConditionAccepted(c2, "salary", body.salary, rx);
    AppendConditionAccepted(c3, "provider", body.provider, rx);
    AppendInConditionAccepted(c4, "_id", body.ids, rx);
    AppendInConditionAccepted(c5, "company_name", body.options.companies, rx);
    AppendInConditionAccepted(c6, "location", body.options.locations, rx);
    AppendInConditionAccepted(c7, "provider", body.options.providers, rx);
    AppendInConditionAccepted(c8, "salary", body.options.salaries, rx);
  }

  lemma OtherConditionsAccepted(body: JobFilter, rx: Regexes)
    ensures AllAccepted(OtherConditions(body), rx) <==> RawPatternsCompile(body, rx)
  {
    var flags := FlagConditions(body.creatorId);
    AppendedConditionsAccepted(body, rx);
    AllAcceptedAppend(AppendedConditions(body), flags, rx);
    assert AllAccepted(flags, rx) by {
      forall i | 0 <= i < |flags| ensures Accepted(flags[i], rx) { }
    }
  }

  /** The corrected query is accepted iff every escaped title word and every
      raw company, location, salary and provider pattern compiles. A company
      of "(" is such a refused pattern. */
  lemma JobsFilterAccepted(body: JobFilter, doc: Doc, rx: Regexes)
    ensures EvalFilter(doc, JobsFilter(body), rx).Some? <==> TitleWordsCompile(body.title, rx) && RawPatternsCompile(body, rx)
  {
    OtherConditionsWellFormed(body);
    TitleConditionsAccepted(body.title, rx);
    OtherConditionsAccepted(body, rx);
    AllAcceptedAppend(TitleConditions(body.title), OtherConditions(body), rx);
    FilterAcceptedIff(doc, TitleConditions(body.title) + OtherConditions(body), rx);
  }

  /** The code's query is accepted iff the title is not a non-empty run of
      white space and every escaped title word and raw pattern compiles. */
  lemma JobsFilterAsWrittenAccepted(body: JobFilter, doc: Doc, rx: Regexes)
    ensures EvalFilter(doc, JobsFilterAsWritten(body), rx).Some?
      <==> !(body.title != "" && Strings.Squeeze(body.title) == "")
           && TitleWordsCompile(body.title, rx) && RawPatternsCompile(body, rx)
  {
    OtherConditionsWellFormed(body);
    TitleConditionsAsWrittenAccepted(body.title, rx);
    OtherConditionsAccepted(body, rx);
    AllAcceptedAppend(TitleConditionsAsWritten(body.title), OtherConditions(body), rx);
    FilterAcceptedIff(doc, TitleConditionsAsWritten(body.title) + OtherConditions(body), rx);
  }

  /** A job the corrected query selects is approved and not closed, was posted
      by the requested creator when one is given, and carries every title word
      in its title. */
  lemma JobsFilterSelects(body: JobFilter, doc: Doc, rx: Regexes)
    requires EvalFilter(doc, JobsFilter(body), rx) == Some(true)
    ensures Lookup(doc, "is_approved") == SBool(true) && Lookup(doc, "is_closed") == SBool(false)
    ensures !ObjectIds.IsZero(body.creatorId) ==> Lookup(doc, "creator") == SId(body.creatorId)
    ensures forall i :: 0 <= i < |TitleWords(body.title)| ==>
      Lookup(doc, "title").SStr? && rx.search(RegexEscape.QuoteMeta(TitleWords(body.title)[i]), Lookup(doc, "title").s)
  {
    var t := TitleConditions(body.title);
    var a := AppendedConditions(body);
    var flags := FlagConditions(body.creatorId);
    var all := t + (a + flags);
    assert JobsFilter(body) == Filter(Some(all));
    FilterHoldsEach(doc, all, rx);
    assert forall c :: c in flags ==> c in all;
    FlagsHold(body.creatorId, doc, rx, all);
    assert forall c :: c in t ==> c in all;
    TitleWordsHold(body.title, doc, rx, all);
  }

  lemma FlagsHold(creatorId: ObjectIds.ObjectId, doc: Doc, rx: Regexes, all: seq<Cond>)
    requires forall c :: c in all ==> Eval(doc, c, rx) == Some(true)
    requires forall c :: c in FlagConditions(creatorId) ==> c in all
    ensures Lookup(doc, "is_approved") == SBool(true) && Lookup(doc, "is_closed") == SBool(false)
    ensures !ObjectIds.IsZero(creatorId) ==> Lookup(doc, "creator") == SId(creatorId)
  {
    var flags := FlagConditions(creatorId);
    assert flags[0] in flags && flags[1] in flags;
    assert Eval(doc, Equals("is_approved", SBool(true)), rx) == Some(true);
    assert Eval(doc, Equals("is_closed", SBool(false)), rx) == Some(true);
    if !ObjectIds.IsZero(creatorId) {
      assert flags[2] in flags;
      assert Eval(doc, Equals("creator", SId(creatorId)), rx) == Some(true);
    }
  }

  lemma TitleWordsHold(title: string, doc: Doc, rx: Regexes, all: seq<Cond>)
    requires forall c :: c in all ==> Eval(doc, c, rx) == Some(true)
    requires forall c :: c in TitleConditions(title) ==> c in all
    ensures forall i :: 0 <= i < |TitleWords(title)| ==>
      Lookup(doc, "title").SStr? && rx.search(RegexEscape.QuoteMeta(TitleWords(title)[i]), Lookup(doc, "title").s)
  {
    var words := TitleWords(title);
    if |words| > 0 {
      var regs := TitleRegexes(words);
      assert Combine("$and", regs) in TitleConditions(title);
      AndHoldsEach(doc, regs, rx);
      TitlePatternsAreWords(title);
      forall i | 0 <= i < |words|
        ensures Lookup(doc, "title").SStr? && rx.search(RegexEscape.QuoteMeta(words[i]), Lookup(doc, "title").s)
      {
        assert regs[i] in regs;
      }
    }
  }

  // ---- GetJobs ---------------------------------------------------------------

  /** Jobs are kept as their stored documents. */
  function AsDoc(d: Doc): Doc { d }

  datatype PaginatedResult = PaginatedResult(total: int64, page: int64, perPage: int64, data: seq<Doc>)

  /** Newest first, window of the clamped page. */
  function JobsOptions(body: JobFilter): FindOptions {
    Pagination.Options(Sort("created_at", -1), body.page, body.pageSize)
  }

  /** `GetJobs`: the query as written, newest first, the clamped page's
      window; both a find and a count error are returned. */
  function GetJobs(body: JobFilter, db: Collection<Doc>): (r: Result<PaginatedResult, string>)
    ensures r.Ok? <==> db.find(JobsFilterAsWritten(body), Some(JobsOptions(body))).Ok? && db.count(JobsFilterAsWritten(body)).Ok?
    ensures r.Ok? ==> r.value.page == Pagination.ClampPageAsWritten(body.page) && r.value.perPage == body.pageSize
  {
    var filter := JobsFilterAsWritten(body);
    match db.find(filter, Some(JobsOptions(body)))
    case Err(e) => Err(e)
    case Ok(data) =>
      match db.count(filter)
      case Err(e) => Err(e)
      case Ok(total) => Ok(PaginatedResult(total, Pagination.ClampPageAsWritten(body.page), body.pageSize, data))
  }

  /** On a server that refuses empty `$and` arrays, a title of white space
      alone makes the listing fail, whatever the stored jobs. */
  lemma BlankTitleListingFails(body: JobFilter, db: Collection<Doc>)
    requires RefusesMalformed(db)
    ensures GetJobs(body, db).Ok? ==> !(body.title != "" && Strings.Squeeze(body.title) == "")
  {
    JobsFilterAsWrittenWellFormed(body);
  }

  /** On a server that refuses patterns it cannot compile, a listing
      succeeds only if every escaped title word and every raw company,
      location, salary and provider value compiles. */
  lemma GetJobsNeedsCompilingPatterns(body: JobFilter, db: Collection<Doc>, rx: Regexes)
    requires RefusesUnaccepted(db, rx)
    ensures GetJobs(body, db).Ok? ==> TitleWordsCompile(body.title, rx) && RawPatternsCompile(body, rx)
  {
    JobsFilterAsWrittenAccepted(body, map[], rx);
  }

  /** A company such as "(" that the engine refuses makes the listing fail,
      whatever else the request holds. */
  lemma UncompilableCompanyListingFails(body: JobFilter, db: Collection<Doc>, rx: Regexes)
    requires RefusesUnaccepted(db, rx)
    requires body.company != "" && !rx.compiles(body.company)
    ensures GetJobs(body, db).Err?
  {
    GetJobsNeedsCompilingPatterns(body, db, rx);
  }

  /** Wherever the code's query is accepted it is the corrected one. */
  lemma JobsFiltersAgree(body: JobFilter)
    ensures FilterWellFormed(JobsFilterAsWritten(body)) ==> JobsFilterAsWritten(body) == JobsFilter(body)
  {
    JobsFilterAsWrittenWellFormed(body);
    TitleHasWords(body.title);
  }

  /** Against an honest collection every listed job is approved, open, and
      stored; the page holds at most a positive page size of them, the total
      counts all matches, and the window is sorted on `created_at`, newest
      first. A listing refused by the server lists nothing. */
  lemma GetJobsListsOpenJobs(body: JobFilter, db: Collection<Doc>, store: seq<Doc>, rx: Regexes)
    requires Honest(db, store, AsDoc, rx) && RefusesMalformed(db)
    requires GetJobs(body, db).Ok?
    ensures var p := GetJobs(body, db).value;
      (forall i :: 0 <= i < |p.data| ==>
         (p.data[i] in store && Lookup(p.data[i], "is_approved") == SBool(true) && Lookup(p.data[i], "is_closed") == SBool(false)))
      && (body.pageSize > 0 ==> |p.data| <= body.pageSize)
      && p.total == CountMatching(store, AsDoc, JobsFilter(body), rx)
    ensures JobsOptions(body).sort == Sort("created_at", -1) && JobsOptions(body).limit == body.pageSize
  {
    var f := JobsFilterAsWritten(body);
    var o := Some(JobsOptions(body));
    assert !FilterWellFormed(f) ==> db.find(f, o).Err?;
    JobsFiltersAgree(body);
    assert f == JobsFilter(body);
    var p := GetJobs(body, db).value;
    assert p.data == db.find(f, o).value;
    forall i | 0 <= i < |p.data|
      ensures p.data[i] in store
      ensures Lookup(p.data[i], "is_approved") == SBool(true) && Lookup(p.data[i], "is_closed") == SBool(false)
    {
      assert EvalFilter(AsDoc(p.data[i]), f, rx) == Some(true);
      JobsFilterSelects(body, p.data[i], rx);
    }
  }

  // ---- distinct values -------------------------------------------------------

  /** The query of one distinct-value lookup: the title block, then `field` not null. */
  function AggregatedFilter(title: string, field: string): Filter {
    Filter(Some(TitleConditionsAsWritten(title) + [NotEq(field, SNull)]))
  }

  const NotAString := "unexpected type for company name: "

  /** What `%T` prints for a value `Distinct` decodes into an `interface{}`:
      the driver's default Go type for each BSON kind, `<nil>` for null. */
  function GoTypeName(x: Scalar): string {
    match x
    case SStr(_) => "string"
    case SInt(_) => "int64"
    case SBool(_) => "bool"
    case SDate(_) => "primitive.DateTime"
    case SId(_) => "primitive.ObjectID"
    case SNull => "<nil>"
  }

  /** `i` is the position of the first value of `results` that is not a string. */
  predicate FirstNonString(results: seq<Scalar>, i: int) {
    0 <= i < |results| && !results[i].SStr? && forall j :: 0 <= j < i ==> results[j].SStr?
  }

  /** The distinct values kept: empty strings dropped, order kept; any value
      that is not a string makes the whole answer an error naming the Go type
      of the first such value. */
  function KeepStrings(results: seq<Scalar>): (r: Result<seq<string>, string>)
    ensures r.Ok? <==> forall i :: 0 <= i < |results| ==> results[i].SStr?
    ensures r.Ok? ==> forall s :: s in r.value <==> s != "" && SStr(s) in results
    ensures forall i :: FirstNonString(results, i) ==> r == Err(NotAString + GoTypeName(results[i]))
  {
    if |results| == 0 then Ok([])
    else if !results[0].SStr? then Err(NotAString + GoTypeName(results[0]))
    else
      assert forall i :: 1 <= i < |results| ==> results[i] == results[1..][i - 1];
      assert forall i :: FirstNonString(results, i) ==> FirstNonString(results[1..], i - 1);
      match KeepStrings(results[1..])
      case Err(e) => Err(e)
      case Ok(rest) =>
        assert results == [results[0]] + results[1..];
        if results[0].s == "" then Ok(rest) else Ok([results[0].s] + rest)
  }

  /** A number among company names: the error names its Go type, and the
      strings before it are discarded. */
  lemma KeepStringsNamesType()
    ensures KeepStrings([SStr("Acme"), SInt(3), SNull]) == Err("unexpected type for company name: int64")
  {
    assert FirstNonString([SStr("Acme"), SInt(3), SNull], 1);
    assert NotAString + GoTypeName(SInt(3)) == "unexpected type for company name: int64";
  }

  /** `kept` followed by what the rest yields, or the rest's error. */
  function Prepend(kept: seq<string>, rest: Result<seq<string>, string>): Result<seq<string>, string> {
    match rest
    case Ok(more) => Ok(kept + more)
    case Err(e) => Err(e)
  }

  /** One step of the filtering: a string at position `i` is kept unless empty. */
  lemma KeepStringsStep(results: seq<Scalar>, i: nat, kept: seq<string>)
    requires i < |results| && results[i].SStr?
    ensures Prepend(kept, KeepStrings(results[i..]))
         == Prepend(kept + (if results[i].s == "" then [] else [results[i].s]), KeepStrings(results[i + 1..]))
  {
    assert results[i..][1..] == results[i + 1..];
    match KeepStrings(results[i + 1..])
    case Err(_) =>
    case Ok(more) =>
      if results[i].s != "" {
        assert kept + ([results[i].s] + more) == (kept + [results[i].s]) + more;
      } else {
        assert kept + [] == kept;
      }
  }

  /** The loop of `GetJobsAggregatedValues` over the distinct results. */
  method FilterDistinct(results: seq<Scalar>) returns (r: Result<seq<string>, string>)
    ensures r == KeepStrings(results)
  {
    var options: seq<string> := [];
    var i := 0;
    assert results[0..] == results;
    if KeepStrings(results).Ok? {
      assert [] + KeepStrings(results).value == KeepStrings(results).value;
    }
    while i < |results|
      invariant 0 <= i <= |results|
      invariant KeepStrings(results) == Prepend(options, KeepStrings(results[i..]))
    {
      if !results[i].SStr? {
        assert FirstNonString(results[i..], 0);
        return Err(NotAString + GoTypeName(results[i]));
      }
      KeepStringsStep(results, i, options);
      if results[i].s != "" {
        options := options + [results[i].s];
      } else {
        assert options + [] == options;
      }
      i := i + 1;
    }
    assert results[i..] == [];
    assert options + [] == options;
    r := Ok(options);
  }

  /** `GetJobsAggregatedValues`: the lookup, then the filtering loop. */
  function AggregatedValues(title: string, field: string, distinct: (Filter, string) -> Result<seq<Scalar>, string>): Result<seq<string>, string> {
    match distinct(AggregatedFilter(title, field), field)
    case Err(e) => Err(e)
    case Ok(results) => KeepStrings(results)
  }

  datatype FilterOptions = FilterOptions(companies: seq<string>, locations: seq<string>, salaries: seq<string>, providers: seq<string>)

  const NoOptions := FilterOptions([], [], [], [])

  /** `GetAggregatedJobsValues` as written: on any failure it returns empty
      options with the error of the company lookup, which is nil when only a
      later lookup failed. */
  function AggregatedJobsValuesAsWritten(title: string, distinct: (Filter, string) -> Result<seq<Scalar>, string>): Result<FilterOptions, string> {
    var companies := AggregatedValues(title, "company_name", distinct);
    var locations := AggregatedValues(title, "location", distinct);
    var salaries := AggregatedValues(title, "salary", distinct);
    var providers := AggregatedValues(title, "provider", distinct);
    if companies.Err? then Err(companies.error)
    else if locations.Err? || salaries.Err? || providers.Err? then Ok(NoOptions)
    else Ok(FilterOptions(companies.value, locations.value, salaries.value, providers.value))
  }

  /** The evidently intended version: the first failure is reported. */
  function AggregatedJobsValues(title: string, distinct: (Filter, string) -> Result<seq<Scalar>, string>): (r: Result<FilterOptions, string>)
    ensures r.Err? <==> AggregatedValues(title, "company_name", distinct).Err? || AggregatedValues(title, "location", distinct).Err?
                        || AggregatedValues(title, "salary", distinct).Err? || AggregatedValues(title, "provider", distinct).Err?
    ensures r.Ok? ==>
      (r.value.companies == AggregatedValues(title, "company_name", distinct).value
       && r.value.locations == AggregatedValues(title, "location", distinct).value
       && r.value.salaries == AggregatedValues(title, "salary", distinct).value
       && r.value.providers == AggregatedValues(title, "provider", distinct).value)
  {
    var companies := AggregatedValues(title, "company_name", distinct);
    var locations := AggregatedValues(title, "location", distinct);
    var salaries := AggregatedValues(title, "salary", distinct);
    var providers := AggregatedValues(title, "provider", distinct);
    if companies.Err? then Err(companies.error)
    else if locations.Err? then Err(locations.error)
    else if salaries.Err? then Err(salaries.error)
    else if providers.Err? then Err(providers.error)
    else Ok(FilterOptions(companies.value, locations.value, salaries.value, providers.value))
  }

  /** The two agree except when the company lookup succeeds and a later one fails. */
  lemma AggregatedJobsValuesAgree(title: string, distinct: (Filter, string) -> Result<seq<Scalar>, string>)
    ensures AggregatedValues(title, "company_name", distinct).Err? ==>
      AggregatedJobsValuesAsWritten(title, distinct) == AggregatedJobsValues(title, distinct)
    ensures AggregatedJobsValuesAsWritten(title, distinct).Ok? && AggregatedJobsValues(title, distinct).Ok? ==>
      AggregatedJobsValuesAsWritten(title, distinct) == AggregatedJobsValues(title, distinct)
  {
  }

  /** A failing location lookup comes back as success with no options. */
  lemma LocationFailureSwallowed()
    ensures var distinct := (f: Filter, field: string) => if field == "location" then Err("timeout") else Ok([]);
      AggregatedJobsValuesAsWritten("", distinct) == Ok(NoOptions)
      && AggregatedJobsValues("", distinct) == Err("timeout")
  {
  }

  // ---- codes and short URLs --------------------------------------------------

  /** The `i`-th of the 62 letters codes are drawn from: a-z, A-Z, then 1-9 and 0. */
  function Letter(i: nat): (c: char)
    requires i < 62
    ensures IsAlphanumeric(c)
  {
    if i < 26 then ('a' as int + i) as char
    else if i < 52 then ('A' as int + (i - 26)) as char
    else if i < 61 then ('1' as int + (i - 52)) as char
    else '0'
  }

  /** The alphabet in draw order. */
  function Alphabet(): (a: string)
    ensures |a| == 62
  {
    seq(62, i requires 0 <= i < 62 => Letter(i))
  }

  predicate IsAlphanumeric(c: char) {
    ('a' <= c <= 'z') || ('A' <= c <= 'Z') || ('0' <= c <= '9')
  }

  /** Where `c` sits in the alphabet. */
  function AlphabetIndex(c: char): (k: nat)
    requires IsAlphanumeric(c)
    ensures k < 62 && Letter(k) == c
  {
    if 'a' <= c <= 'z' then c as int - 'a' as int
    else if 'A' <= c <= 'Z' then 26 + (c as int - 'A' as int)
    else if c == '0' then 61
    else 51 + (c as int - '0' as int)
  }

  /** A random string: one alphabet letter per draw of `r.Intn(62)`; the
      random source is a parameter. */
  function RandomString(draws: seq<nat>): (s: string)
    requires forall i :: 0 <= i < |draws| ==> draws[i] < 62
    ensures |s| == |draws|
    ensures forall i :: 0 <= i < |s| ==> IsAlphanumeric(s[i])
  {
    seq(|draws|, i requires 0 <= i < |draws| => Letter(draws[i]))
  }

  /** Every alphanumeric string is some sequence of draws: the generator can
      produce any code of its length and nothing else. */
  lemma RandomStringOnto(s: string)
    requires forall i :: 0 <= i < |s| ==> IsAlphanumeric(s[i])
    ensures exists draws: seq<nat> :: |draws| == |s| && (forall i :: 0 <= i < |draws| ==> draws[i] < 62) && RandomString(draws) == s
  {
    var draws := seq(|s|, i requires 0 <= i < |s| => AlphabetIndex(s[i]));
    assert RandomString(draws) == s;
  }

  /** `GenerateCode`: six draws. */
  function GenerateCode(draws: seq<nat>): (code: string)
    requires |draws| == 6 && forall i :: 0 <= i < 6 ==> draws[i] < 62
    ensures |code| == 6
    ensures forall i :: 0 <= i < |code| ==> IsAlphanumeric(code[i])
  {
    RandomString(draws)
  }

  /** `GetValidationToken`: thirty-two draws. */
  function ValidationToken(draws: seq<nat>): (token: string)
    requires |draws| == 32 && forall i :: 0 <= i < 32 ==> draws[i] < 62
    ensures |token| == 32
    ensures forall i :: 0 <= i < |token| ==> IsAlphanumeric(token[i])
  {
    RandomString(draws)
  }

  datatype ShortUrls = ShortUrls(shortUrl: string, detailUrl: string, code: string)

  /** `CreateShortUrl` for a code, `base` being `BASE_UI_HOST`. */
  function CreateShortUrl(base: string, code: string): ShortUrls {
    ShortUrls(base + "/go/" + code, base + "/v/" + code, code)
  }

  /** What `GetOriginalURL` returns: a URL, and an error beside it on the fallback path. */
  datatype OriginalUrl = OriginalUrl(url: string, err: Option<string>)

  /** `GetOriginalURL`: the stored URL of an approved open job with that short
      URL; when the lookup fails, the site's listing page for the last six
      characters, with the error. `None` is the panic of slicing a short URL
      of fewer than six characters. Go counts bytes here; the two cuts agree
      on the ASCII short URLs the service makes. */
  function GetOriginalUrl(base: string, shortUrl: string, findOne: string -> Result<string, string>): (r: Option<OriginalUrl>)
    ensures findOne(shortUrl).Ok? ==> r == Some(OriginalUrl(findOne(shortUrl).value, None))
    ensures findOne(shortUrl).Err? ==> (r.Some? <==> |shortUrl| >= 6)
    ensures findOne(shortUrl).Err? && r.Some? ==>
      r.value.err == Some(findOne(shortUrl).error) && r.value.url == base + "/vagas/" + shortUrl[|shortUrl| - 6..]
  {
    match findOne(shortUrl)
    case Ok(url) => Some(OriginalUrl(url, None))
    case Err(e) =>
      match Strings.LastN(shortUrl, 6)
      case None => None
      case Some(code) => Some(OriginalUrl(base + "/vagas/" + code, Some(e)))
  }

  /** The fallback of a short URL this service made leads to the listing page
      of the same code. */
  lemma FallbackRecoversCode(base: string, uiBase: string, code: string, findOne: string -> Result<string, string>)
    requires |code| == 6
    requires findOne(CreateShortUrl(base, code).shortUrl).Err?
    ensures GetOriginalUrl(uiBase, CreateShortUrl(base, code).shortUrl, findOne).Some?
    ensures GetOriginalUrl(uiBase, CreateShortUrl(base, code).shortUrl, findOne).value.url == uiBase + "/vagas/" + code
  {
    var s := CreateShortUrl(base, code).shortUrl;
    assert s[|s| - 6..] == code;
  }

  // ---- CreateJob -------------------------------------------------------------

  datatype CreateJobBody = CreateJobBody(title: string, company: string, location: string, url: string,
                                         salary: string, provider: string, creator: string)

  datatype Job = Job(
    id: string, title: string, company: string, location: string, url: string, salary: string,
    provider: string, createdAt: int, creator: string, isApproved: bool, isClosed: bool,
    postedOnDiscord: bool, postedOnTelegram: bool, postedOnMastodon: bool,
    postedOnFacebook: bool, postedOnTwitter: bool, postedOnBlueSky: bool,
    code: string, jobShortUrl: string, jobDetailsUrl: string)

  /** `log.Fatalf` ends the process; `OutOfCodes` is the model's bound on the
      otherwise unbounded retry loop. */
  datatype CreateOutcome = Created(job: Job) | InsertFailed(err: string) | Fatal(err: string) | OutOfCodes

  /** A job not yet posted anywhere, waiting for approval. */
  predicate Fresh(j: Job) {
    !j.isApproved && !j.isClosed && !j.postedOnDiscord && !j.postedOnTelegram && !j.postedOnMastodon
    && !j.postedOnFacebook && !j.postedOnTwitter && !j.postedOnBlueSky
  }

  /** `CreateJob`: `codes` are the successive codes `GenerateCode` draws,
      `available` is `IsShortUrlAvailable`, `insert` is `InsertOne`; `id` and
      `now` stand for the uuid and the clock. `IsShortUrlAvailable` treats any
      `FindOne` error, "no document" or not, as "available"; its only error is
      the folded connection error (in Go, a nil client then panics in the
      deferred `Disconnect`), so `Fatal`, the `log.Fatalf` ending, is reached
      only through that error. */
  method CreateJob(body: CreateJobBody, base: string, codes: seq<string>, available: string -> Result<bool, string>,
                   id: string, now: int, insert: Job -> Option<string>) returns (r: CreateOutcome)
    ensures r.Created? ==>
      exists k :: 0 <= k < |codes| && r.job.code == codes[k]
        && available(CreateShortUrl(base, codes[k]).shortUrl) == Ok(true)
        && (forall j :: 0 <= j < k ==> available(CreateShortUrl(base, codes[j]).shortUrl) == Ok(false))
    ensures r.Created? ==> r.job.jobShortUrl == base + "/go/" + r.job.code && r.job.jobDetailsUrl == base + "/v/" + r.job.code
    ensures r.Created? ==> r.job.provider == (if body.provider == "" then "vagasprajr" else body.provider)
    ensures r.Created? ==>
      (Fresh(r.job) && r.job.title == body.title && r.job.company == body.company
       && r.job.url == body.url && r.job.creator == body.creator && r.job.createdAt == now)
    ensures r.OutOfCodes? ==> forall j :: 0 <= j < |codes| ==> available(CreateShortUrl(base, codes[j]).shortUrl) == Ok(false)
  {
    var k := 0;
    while k < |codes| && available(CreateShortUrl(base, codes[k]).shortUrl) != Ok(true)
      invariant 0 <= k <= |codes|
      invariant forall j :: 0 <= j < k ==> available(CreateShortUrl(base, codes[j]).shortUrl) == Ok(false)
    {
      var answer := available(CreateShortUrl(base, codes[k]).shortUrl);
      if answer.Err? {
        return Fatal(answer.error);
      }
      assert answer.value == false;
      k := k + 1;
    }
    if k == |codes| {
      return OutOfCodes;
    }
    var urls := CreateShortUrl(base, codes[k]);
    var provider := if body.provider == "" then "vagasprajr" else body.provider;
    var job := Job(id, body.title, body.company, body.location, body.url, body.salary, provider, now, body.creator,
                   false, false, false, false, false, false, false, false, urls.code, urls.shortUrl, urls.detailUrl);
    match insert(job)
    case Some(e) => r := InsertFailed(e);
    case None => r := Created(job);
  }
}
