/** The short-URL handlers of controllers/shorturls/shorturl_controller.go:
    the lookup that answers with a URL, and the two redirects that count a
    click first. */
module ShortUrlController {
  import opened Wrappers
  import opened Http
  import JobRepository

  datatype Body = Error(message: string) | Original(originalUrl: string)

  /** A JSON reply, a redirect, or the 500 of gin's recovery after a panic. */
  datatype Reply = Json(status: int, body: Body) | Redirect(status: int, location: string) | Recovered

  const CodeNotFound: string := "Code not found"
  const LookupProblem: string := "Problem getting the original URL"
  const ClickProblem: string := "Problem updating the advertisement clicks"

  /** The short URL of a job code, `base` being `BASE_UI_HOST`. */
  function JobShortUrl(base: string, code: string): (s: string)
    ensures s == JobRepository.CreateShortUrl(base, code).shortUrl
  {
    base + "/go/" + code
  }

  /** The short URL of an advertisement code. */
  function AdShortUrl(base: string, code: string): (s: string)
    ensures |s| == |base| + 3 + |code|
    ensures s[..|base|] == base && s[|base|..|base| + 3] == "/r/" && s[|base| + 3..] == code
  {
    base + "/r/" + code
  }

  /** `GetOriginalURL`: the lookup's error is dropped, so the fallback URL is
      answered with 200 like a stored one. `findOne` is the `jobs` lookup of
      `jobs.GetOriginalURL`. */
  function GetOriginalUrl(base: string, code: string, findOne: string -> Result<string, string>): (r: Reply)
    ensures code == "" ==> r == Json(BadRequest, Error(CodeNotFound))
    ensures code != "" && findOne(JobShortUrl(base, code)).Ok? ==> r == Json(OK, Original(findOne(JobShortUrl(base, code)).value))
    ensures code != "" && |JobShortUrl(base, code)| >= 6 ==> r.Json? && r.status == OK
  {
    if code == "" then Json(BadRequest, Error(CodeNotFound))
    else
      match JobRepository.GetOriginalUrl(base, JobShortUrl(base, code), findOne)
      case None => Recovered
      case Some(o) => Json(OK, Original(o.url))
  }

  /** For a six-character code the job store does not know, the answer is
      still 200, with the listing page of that code. */
  lemma UnknownCodeAnswersListingPage(base: string, code: string, findOne: string -> Result<string, string>)
    requires |code| == 6 && findOne(JobShortUrl(base, code)).Err?
    ensures GetOriginalUrl(base, code, findOne) == Json(OK, Original(base + "/vagas/" + code))
  {
    JobRepository.FallbackRecoversCode(base, base, code, findOne);
  }

  /** `RedirectToOriginalAdURL`: `lookup` is `promotions.GetAdOriginalURL` and
      `count` the error of `UpdateAdvertisementClicks`, if any. The second
      component is the short URL whose counter was incremented. */
  function RedirectToOriginalAdUrl(base: string, code: string, lookup: string -> Result<string, string>,
                                   count: string -> Option<string>): (r: (Reply, Option<string>))
    ensures code == "" ==> r == (Json(BadRequest, Error(CodeNotFound)), None)
    ensures r.0.Redirect? <==> code != "" && lookup(AdShortUrl(base, code)).Ok? && count(AdShortUrl(base, code)).None?
    ensures r.0.Redirect? ==> r.0 == Redirect(TemporaryRedirect, lookup(AdShortUrl(base, code)).value)
    ensures r.1.Some? <==> r.0.Redirect?
    ensures r.1.Some? ==> r.1.value == AdShortUrl(base, code)
  {
    if code == "" then (Json(BadRequest, Error(CodeNotFound)), None)
    else
      var shortUrl := AdShortUrl(base, code);
      match lookup(shortUrl)
      case Err(_) => (Json(InternalServerError, Error(LookupProblem)), None)
      case Ok(url) =>
        if count(shortUrl).Some? then (Json(InternalServerError, Error(ClickProblem)), None)
        else (Redirect(TemporaryRedirect, url), Some(shortUrl))
  }

  /** `RedirectToOriginalJobUrl`: a lookup error is a 500, so the fallback URL
      is never a redirect target; the click counted is the advertisement one
      keyed by the job's short URL. */
  function RedirectToOriginalJobUrl(base: string, code: string, findOne: string -> Result<string, string>,
                                    count: string -> Option<string>): (r: (Reply, Option<string>))
    ensures code == "" ==> r == (Json(BadRequest, Error(CodeNotFound)), None)
    ensures r.0.Redirect? <==> code != "" && findOne(JobShortUrl(base, code)).Ok? && count(JobShortUrl(base, code)).None?
    ensures r.0.Redirect? ==> r.0 == Redirect(TemporaryRedirect, findOne(JobShortUrl(base, code)).value)
    ensures r.1.Some? <==> r.0.Redirect?
    ensures r.1.Some? ==> r.1.value == JobRepository.CreateShortUrl(base, code).shortUrl
  {
    if code == "" then (Json(BadRequest, Error(CodeNotFound)), None)
    else
      var shortUrl := JobShortUrl(base, code);
      match JobRepository.GetOriginalUrl(base, shortUrl, findOne)
      case None => (Recovered, None)
      case Some(o) =>
        if o.err.Some? then (Json(InternalServerError, Error(LookupProblem)), None)
        else if count(shortUrl).Some? then (Json(InternalServerError, Error(ClickProblem)), None)
        else (Redirect(TemporaryRedirect, o.url), Some(shortUrl))
  }

  /** Where the two job handlers part: on a lookup failure for a six-character
      code, the URL answer gives the listing page while the redirect gives 500. */
  lemma LookupFailureDiverges(base: string, code: string, findOne: string -> Result<string, string>, count: string -> Option<string>)
    requires |code| == 6 && findOne(JobShortUrl(base, code)).Err?
    ensures GetOriginalUrl(base, code, findOne) == Json(OK, Original(base + "/vagas/" + code))
    ensures RedirectToOriginalJobUrl(base, code, findOne, count).0 == Json(InternalServerError, Error(LookupProblem))
  {
    UnknownCodeAnswersListingPage(base, code, findOne);
  }
}
