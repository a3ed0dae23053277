/** The older `GetJobs` revision of models/jobs/job_repo.go: title words only,
    always under a `$and`, with the same page window. */
module JobRepo {
  import opened Wrappers
  import opened Numbers
  import opened Query
  import opened Store
  import Pagination
  import RegexEscape
  import JobRepository

  /** The query as written: `{"$and": conditions}` even when there are none. */
  function LegacyFilterAsWritten(title: string): Filter {
    Filter(Some(JobRepository.TitleConditionsAsWritten(title)))
  }

  /** With no title the query is `{"$and": []}`, which MongoDB refuses, so
      the unfiltered listing fails whatever the stored jobs. */
  lemma UntitledListingRefused(doc: Doc, rx: Regexes)
    ensures LegacyFilterAsWritten("") == Filter(Some([]))
    ensures !FilterWellFormed(LegacyFilterAsWritten(""))
    ensures EvalFilter(doc, LegacyFilterAsWritten(""), rx) == None
  {
  }

  /** The evidently intended query: the title block, or the empty filter. */
  function LegacyFilter(title: string): (f: Filter)
    ensures FilterWellFormed(f)
  {
    var conds := JobRepository.TitleConditions(title);
    JobRepository.TitleConditionsWellFormed(title);
    if |conds| == 0 then Empty else Filter(Some(conds))
  }

  /** The two agree exactly when the title has a non-space character. */
  lemma LegacyFiltersAgree(title: string)
    ensures LegacyFilterAsWritten(title) == LegacyFilter(title) <==> Strings.Squeeze(title) != ""
  {
    JobRepository.TitleHasWords(title);
  }

  /** Nothing but title words is asked for: no approval, closed, company or
      list condition in this revision. */
  lemma OnlyTitleConditions(title: string)
    ensures var cs := LegacyFilterAsWritten(title).and.value;
      forall i :: 0 <= i < |cs| ==>
        (cs[i].Combine? && cs[i].key == "$and"
         && forall j :: 0 <= j < |cs[i].items| ==> cs[i].items[j].Regex? && cs[i].items[j].field == "title")
  {
  }

  /** A job matches the corrected query iff every escaped title word
      compiles and the job's title matches each of them. */
  lemma LegacyFilterMeaning(title: string, doc: Doc, rx: Regexes)
    ensures EvalFilter(doc, LegacyFilter(title), rx) == Some(true)
      <==> JobRepository.TitleWordsCompile(title, rx) && TitleMatches(title, doc, rx)
  {
    var words := JobRepository.TitleWords(title);
    if |words| > 0 {
      var regs := JobRepository.TitleRegexes(words);
      var inner := Combine("$and", regs);
      assert LegacyFilter(title) == Filter(Some([inner]));
      EvalAllIff(doc, Combine("$and", [inner]), [inner], rx);
      assert EvalFilter(doc, LegacyFilter(title), rx) == Some(true) <==> Eval(doc, inner, rx) == Some(true);
      TitleRegexesMeaning(title, doc, rx);
    }
  }

  /** The title block holds iff every escaped word compiles and matches. */
  lemma TitleRegexesMeaning(title: string, doc: Doc, rx: Regexes)
    requires |JobRepository.TitleWords(title)| > 0
    ensures Eval(doc, Combine("$and", JobRepository.TitleRegexes(JobRepository.TitleWords(title))), rx) == Some(true)
      <==> JobRepository.TitleWordsCompile(title, rx) && TitleMatches(title, doc, rx)
  {
    var words := JobRepository.TitleWords(title);
    var regs := JobRepository.TitleRegexes(words);
    var c := Combine("$and", regs);
    JobRepository.TitlePatternsAreWords(title);
    EvalAllIff(doc, c, regs, rx);
    assert Eval(doc, c, rx) == EvalAll(doc, c, regs, rx);
    forall i | 0 <= i < |words|
      ensures Eval(doc, regs[i], rx) == Some(true)
        <==> rx.compiles(RegexEscape.QuoteMeta(words[i]))
             && Lookup(doc, "title").SStr? && rx.search(RegexEscape.QuoteMeta(words[i]), Lookup(doc, "title").s)
    {
      assert regs[i] == Regex("title", RegexEscape.QuoteMeta(words[i]));
    }
  }

  /** The code's query is accepted iff the title has a non-space character
      and every escaped word compiles: `{"$and": []}` never is. */
  lemma LegacyFilterAccepted(title: string, doc: Doc, rx: Regexes)
    ensures EvalFilter(doc, LegacyFilterAsWritten(title), rx).Some?
      <==> Strings.Squeeze(title) != "" && JobRepository.TitleWordsCompile(title, rx)
  {
    var cs := JobRepository.TitleConditionsAsWritten(title);
    JobRepository.TitleConditionsAsWrittenAccepted(title, rx);
    if title == "" {
      assert Strings.Squeeze(title) == "";
      assert EvalFilter(doc, LegacyFilterAsWritten(title), rx) == None;
    } else {
      FilterAcceptedIff(doc, cs, rx);
    }
  }

  datatype PaginatedResult = PaginatedResult(total: int64, page: int64, perPage: int64, data: seq<Doc>)

  /** `GetJobs` of this revision: the query as written, newest first, the
      clamped page's window; find and count errors are returned. */
  function GetJobs(title: string, page: int64, pageSize: int64, db: Collection<Doc>): (r: Result<PaginatedResult, string>)
    ensures r.Ok? <==>
      db.find(LegacyFilterAsWritten(title), Some(Pagination.Options(Sort("created_at", -1), page, pageSize))).Ok?
      && db.count(LegacyFilterAsWritten(title)).Ok?
    ensures r.Ok? ==> r.value.page == Pagination.ClampPageAsWritten(page) && r.value.perPage == pageSize
  {
    var filter := LegacyFilterAsWritten(title);
    match db.find(filter, Some(Pagination.Options(Sort("created_at", -1), page, pageSize)))
    case Err(e) => Err(e)
    case Ok(data) =>
      match db.count(filter)
      case Err(e) => Err(e)
      case Ok(total) => Ok(PaginatedResult(total, Pagination.ClampPageAsWritten(page), pageSize, data))
  }

  /** The title of `doc` matches every escaped title word. */
  predicate TitleMatches(title: string, doc: Doc, rx: Regexes) {
    forall i :: 0 <= i < |JobRepository.TitleWords(title)| ==>
      Lookup(doc, "title").SStr? && rx.search(RegexEscape.QuoteMeta(JobRepository.TitleWords(title)[i]), Lookup(doc, "title").s)
  }

  /** A listing succeeds on a server that refuses empty `$and` arrays only if
      the title has a non-space character: an untitled listing always fails. */
  lemma GetJobsNeedsTitle(title: string, page: int64, pageSize: int64, db: Collection<Doc>)
    requires RefusesMalformed(db)
    ensures GetJobs(title, page, pageSize, db).Ok? ==> Strings.Squeeze(title) != ""
  {
    if Strings.Squeeze(title) == "" {
      // No words: the block is `{"$and": []}` or empty, which the server refuses.
      var f := LegacyFilterAsWritten(title);
      JobRepository.TitleConditionsAsWrittenWellFormed(title);
      assert !FilterWellFormed(f);
      assert db.find(f, Some(Pagination.Options(Sort("created_at", -1), page, pageSize))).Err?;
    }
  }

  /** On a server that refuses what it cannot parse or compile, a listing
      succeeds only for a title with a non-space character whose escaped
      words all compile. */
  lemma GetJobsNeedsCompilingTitle(title: string, page: int64, pageSize: int64, db: Collection<Doc>, rx: Regexes)
    requires RefusesUnaccepted(db, rx)
    ensures GetJobs(title, page, pageSize, db).Ok? ==> Strings.Squeeze(title) != "" && JobRepository.TitleWordsCompile(title, rx)
  {
    LegacyFilterAccepted(title, map[], rx);
  }

  /** When a listing succeeds against an honest collection, every listed job
      is stored and its title matches every escaped title word. */
  lemma GetJobsListsMatchingTitles(title: string, page: int64, pageSize: int64, db: Collection<Doc>, store: seq<Doc>, rx: Regexes)
    requires RefusesMalformed(db) && Honest(db, store, AsDoc, rx)
    requires GetJobs(title, page, pageSize, db).Ok?
    ensures var data := GetJobs(title, page, pageSize, db).value.data;
            forall k :: 0 <= k < |data| ==> data[k] in store && TitleMatches(title, data[k], rx)
  {
    var f := LegacyFilterAsWritten(title);
    var o := Some(Pagination.Options(Sort("created_at", -1), page, pageSize));
    GetJobsNeedsTitle(title, page, pageSize, db);
    LegacyFiltersAgree(title);
    assert f == LegacyFilter(title);
    var data := GetJobs(title, page, pageSize, db).value.data;
    assert data == db.find(f, o).value;
    forall k | 0 <= k < |data|
      ensures data[k] in store && TitleMatches(title, data[k], rx)
    {
      assert EvalFilter(AsDoc(data[k]), f, rx) == Some(true);
      assert EvalFilter(data[k], LegacyFilter(title), rx) == Some(true);
      LegacyFilterMeaning(title, data[k], rx);
    }
  }

  function AsDoc(d: Doc): Doc { d }

  import Strings
}
