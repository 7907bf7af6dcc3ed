/** The `requestHandler` of each health-check runner, as a decision over
    what the handler observes: the sniffed file type, the text a selector
    yields, the configured credentials and the third-party API's answer.
    A handler ends in one of four ways: it reports a success with a
    title, reports a failure, reports a failure and marks the request
    `noRetry`, or throws so that the crawler retries the request. The API
    runners also record the data-request URL they sent, if any. */
module Runners {
  import opened Wrappers
  import opened Text
  import opened Registry
  import Entities
  import ApiUrls

  /** How a `requestHandler` call ends. */
  datatype Verdict =
    | Succeed(title: string)
    | Fail(error: CheckError, noRetry: bool)
    | Throw(error: CheckError)

  /** An API handler's verdict and the data request it sent. */
  datatype ApiStep = ApiStep(sent: Option<string>, verdict: Verdict)

  /** A credential read from the environment is usable when it is defined
      and not the empty string. */
  predicate Present(credential: Option<string>) {
    credential.Some? && credential.value != ""
  }

  const PdfFile: FileType := FileType("pdf", "application/pdf")

  /** `PdfFileHealthCheckRunner.requestHandler`. */
  function PdfVerdict(url: string, file: Option<FileType>): (v: Verdict)
    ensures v.Succeed? <==> file == Some(PdfFile)
    ensures v.Succeed? ==> v.title == ApiUrls.PdfTitle(url)
    ensures !v.Succeed? ==> v == Fail(NotPdf(file), false)
  {
    if file.None? || file.value.ext != "pdf" || file.value.mime != "application/pdf" then
      Fail(NotPdf(file), false)
    else
      Succeed(ApiUrls.PdfTitle(url))
  }

  /** `HttpHealthCheckRunner.requestHandler`: the selector's text, with
      entities filtered, must not trim to nothing. */
  function HttpVerdict(selectorText: string): (v: Verdict)
    ensures v.Fail? <==> AllSpace(Entities.RemoveSoftHyphens(selectorText))
    ensures v.Succeed? ==> v.title == Entities.RemoveSoftHyphens(selectorText)
    ensures v.Fail? ==> v == Fail(NoTitleText, false)
    ensures !v.Throw?
  {
    var title := Entities.FilterEntities(selectorText);
    Entities.FilterEntitiesRemovesSoftHyphens(selectorText);
    TrimEmptyIffAllSpace(title);
    if Trim(title) == "" then Fail(NoTitleText, false) else Succeed(title)
  }

  /** `E2EHealthCheckRunner.requestHandler`: the first matching element's
      text content, which fails only when missing or empty. */
  function E2EVerdict(titleSelector: string, textContent: Option<string>): (v: Verdict)
    ensures v.Fail? <==> textContent == None || textContent == Some("")
    ensures v.Succeed? ==> textContent == Some(v.title)
    ensures v.Fail? ==> v == Fail(NoSelectorText(titleSelector), false)
    ensures !v.Throw?
  {
    match textContent
    case Some(title) => if title == "" then Fail(NoSelectorText(titleSelector), false) else Succeed(title)
    case None => Fail(NoSelectorText(titleSelector), false)
  }

  /** The part of a YouTube Data API response the runner reads: the
      titles of `items` in order, and `pageInfo.totalResults`. */
  datatype YoutubeResponse = YoutubeResponse(titles: seq<string>, totalResults: int)

  /** `YoutubeDataApiV3HealthCheckRunner.requestHandler`. A reply that
      announces results but lists no items makes `items[0]` undefined,
      and reading its snippet throws. */
  function YoutubeStep(url: string, apiKey: Option<string>, response: YoutubeResponse): (s: ApiStep)
    ensures !Present(apiKey) ==> s == ApiStep(None, Fail(MissingCredential(YoutubeApiKey), true))
    ensures Present(apiKey) ==> s.sent == ApiUrls.YoutubeDataUrl(url, apiKey.value)
    ensures s.sent.None? && Present(apiKey) ==> s.verdict == Fail(UnrecognisedUrl(url), true)
    ensures s.verdict.Fail? ==> s.verdict.noRetry
    ensures s.verdict.Succeed? <==> s.sent.Some? && response.totalResults >= 1 && |response.titles| > 0
    ensures s.verdict.Succeed? ==> s.verdict.title == response.titles[0]
    ensures s.sent.Some? && response.totalResults < 1 ==> s.verdict == Fail(NoResults, true)
    ensures s.sent.Some? && response.totalResults >= 1 && |response.titles| == 0 ==>
              s.verdict == Throw(MalformedResponse)
  {
    if !Present(apiKey) then
      ApiStep(None, Fail(MissingCredential(YoutubeApiKey), true))
    else
      match ApiUrls.YoutubeDataUrl(url, apiKey.value)
      case None => ApiStep(None, Fail(UnrecognisedUrl(url), true))
      case Some(dataUrl) =>
        if response.totalResults < 1 then
          ApiStep(Some(dataUrl), Fail(NoResults, true))
        else if |response.titles| == 0 then
          ApiStep(Some(dataUrl), Throw(MalformedResponse))
        else
          ApiStep(Some(dataUrl), Succeed(response.titles[0]))
  }

  /** What the Zenscrape runner reads of the API's reply: the status code
      and the text the title selector yields on the returned page. */
  datatype ScrapeResponse = ScrapeResponse(statusCode: int, selectedText: string)

  const TooManyRequests: int := 429

  /** The `render` and `premium` flags a request's `userData` carries. Data
      of another shape has neither field, and an absent field reads as
      `undefined`, which is falsy. */
  function ScrapeFlags(d: UserData): (bool, bool)
  {
    match d
    case Scrape(_, render, premium) => (render, premium)
    case _ => (false, false)
  }

  /** `ZenscrapeHealthCheckRunner.requestHandler`. A 429 reply throws, so
      the crawler retries after its delay instead of settling the check;
      a blank title settles it as a failure not marked `noRetry`. */
  function ZenscrapeStep(request: Request, apiKey: Option<string>, response: ScrapeResponse): (s: ApiStep)
    ensures !Present(apiKey) ==> s == ApiStep(None, Fail(MissingCredential(ZenscrapeApiKey), true))
    ensures Present(apiKey) && request.userData.Scrape? ==>
              s.sent == Some(ApiUrls.ZenscrapeDataUrl(request.url, request.userData.render, request.userData.premium))
    ensures Present(apiKey) && !request.userData.Scrape? ==>
              s.sent == Some(ApiUrls.ZenscrapeDataUrl(request.url, false, false))
    ensures s.verdict.Throw? <==> Present(apiKey) && response.statusCode == TooManyRequests
    ensures Present(apiKey) && response.statusCode != TooManyRequests ==>
              (s.verdict.Fail? <==> AllSpace(response.selectedText))
    ensures Present(apiKey) && s.verdict.Fail? ==> s.verdict == Fail(NoTitleText, false)
    ensures s.verdict.Succeed? ==> s.verdict.title == response.selectedText
  {
    if !Present(apiKey) then
      ApiStep(None, Fail(MissingCredential(ZenscrapeApiKey), true))
    else
      var (render, premium) := ScrapeFlags(request.userData);
      var dataUrl := ApiUrls.ZenscrapeDataUrl(request.url, render, premium);
      if response.statusCode == TooManyRequests then
        ApiStep(Some(dataUrl), Throw(ConcurrentRequests))
      else
        TrimEmptyIffAllSpace(response.selectedText);
        if Trim(response.selectedText) == "" then ApiStep(Some(dataUrl), Fail(NoTitleText, false))
        else ApiStep(Some(dataUrl), Succeed(response.selectedText))
  }

  /** The part of a Udemy Affiliate API reply the runner reads. */
  datatype UdemyResponse = UdemyResponse(title: string)

  /** `UdemyAffiliateApiHealthCheckRunner.requestHandler`: the client id is
      checked before the secret, then the URL; each is its own
      non-retryable failure, sent before any request. */
  function UdemyStep(url: string, clientId: Option<string>, clientSecret: Option<string>,
                     response: UdemyResponse): (s: ApiStep)
    ensures !Present(clientId) ==> s == ApiStep(None, Fail(MissingCredential(UdemyClientId), true))
    ensures Present(clientId) && !Present(clientSecret) ==>
              s == ApiStep(None, Fail(MissingCredential(UdemyClientSecret), true))
    ensures Present(clientId) && Present(clientSecret) ==>
              s.sent == ApiUrls.UdemyDataUrl(url)
              && (s.sent.None? ==> s.verdict == Fail(UnrecognisedUrl(url), true))
    ensures s.verdict.Fail? ==> s.verdict.noRetry && s.sent.None?
    ensures s.verdict.Succeed? <==> s.sent.Some?
    ensures s.verdict.Succeed? ==> s.verdict.title == response.title
    ensures !s.verdict.Throw?
  {
    if !Present(clientId) then
      ApiStep(None, Fail(MissingCredential(UdemyClientId), true))
    else if !Present(clientSecret) then
      ApiStep(None, Fail(MissingCredential(UdemyClientSecret), true))
    else
      match ApiUrls.UdemyDataUrl(url)
      case None => ApiStep(None, Fail(UnrecognisedUrl(url), true))
      case Some(dataUrl) => ApiStep(Some(dataUrl), Succeed(response.title))
  }

  /** The result a settling verdict stands for. */
  function ResultOf(url: string, v: Verdict): HealthCheckResult
    requires !v.Throw?
  {
    match v
    case Succeed(title) => Success(url, title)
    case Fail(error, _) => Failure(url, error)
  }

  /** Hands a verdict to the registry: a success or failure settles the
      request's deferred through the runner's callbacks; a throw leaves the
      registry alone for the crawler to retry. */
  function Deliver(r: Runner, request: Request, v: Verdict): (r': Runner)
    ensures v.Throw? ==> r' == r
    ensures r'.results.Keys == r.results.Keys && r'.queue == r.queue && r'.running == r.running
    ensures !v.Throw? && request.url in r.results && r.results[request.url].settled.None? ==>
              Await(r', Promise(request.url, r.results[request.url].id)) == Some(ResultOf(request.url, v))
  {
    match v
    case Succeed(title) => Succeeded(r, request, title)
    case Fail(error, _) => Failed(r, request, error)
    case Throw(_) => r
  }

  /** `failedRequestHandler`: once the crawler gives up on a request, its
      error settles the check. */
  function FailedRequest(r: Runner, request: Request, error: CheckError): (r': Runner)
    ensures r'.results.Keys == r.results.Keys
    ensures request.url in r.results && r.results[request.url].settled.None? ==>
              Await(r', Promise(request.url, r.results[request.url].id)) == Some(Failure(request.url, error))
  {
    Failed(r, request, error)
  }

  /** A soft hyphen is not white space. */
  lemma RemoveSoftHyphensAllSpace(s: string)
    requires AllSpace(s)
    ensures Entities.RemoveSoftHyphens(s) == s
  {
    assert !IsSpace(Entities.SoftHyphen);
    Entities.RemoveSoftHyphensIdentity(s);
  }

  /** White-space-only text is a failure for the HTTP runner, which trims,
      and a success for the rendering runner, which does not. */
  lemma WhitespaceTitleDivergence(text: string, titleSelector: string)
    requires |text| > 0 && AllSpace(text)
    ensures HttpVerdict(text) == Fail(NoTitleText, false)
    ensures E2EVerdict(titleSelector, Some(text)) == Succeed(text)
  {
    RemoveSoftHyphensAllSpace(text);
  }

  /** A title that is only soft hyphens counts as empty for the HTTP runner. */
  lemma SoftHyphensOnlyIsEmpty(text: string)
    requires forall i :: 0 <= i < |text| ==> text[i] == Entities.SoftHyphen
    ensures HttpVerdict(text).Fail?
  {
    SoftHyphensRemoved(text);
  }

  lemma {:induction false} SoftHyphensRemoved(text: string)
    requires forall i :: 0 <= i < |text| ==> text[i] == Entities.SoftHyphen
    ensures Entities.RemoveSoftHyphens(text) == []
    decreases |text|
  {
    if |text| > 0 {
      SoftHyphensRemoved(text[1..]);
    }
  }

  /** A blank Zenscrape title settles the check as a failure not marked
      `noRetry`; an empty YouTube result settles it as one marked `noRetry`. */
  lemma EmptyTitleRetryPolicies(request: Request, apiKey: string, blank: string)
    requires apiKey != "" && AllSpace(blank)
    requires ApiUrls.YoutubeDataUrl(request.url, apiKey).Some?
    ensures ZenscrapeStep(request, Some(apiKey), ScrapeResponse(200, blank)).verdict
         == Fail(NoTitleText, false)
    ensures YoutubeStep(request.url, Some(apiKey), YoutubeResponse([], 0)).verdict == Fail(NoResults, true)
  {
  }

  /** A rate-limited Zenscrape reply leaves the check pending. */
  lemma RateLimitKeepsCheckPending(r: Runner, request: Request, apiKey: string, text: string)
    requires apiKey != ""
    ensures var s := ZenscrapeStep(request, Some(apiKey), ScrapeResponse(TooManyRequests, text));
            s.verdict == Throw(ConcurrentRequests) && Deliver(r, request, s.verdict) == r
  {
  }

  /** With both Udemy credentials missing, the client id is the one reported. */
  lemma UdemyReportsClientIdFirst(url: string, clientSecret: Option<string>, response: UdemyResponse)
    ensures UdemyStep(url, None, clientSecret, response).verdict == Fail(MissingCredential(UdemyClientId), true)
    ensures UdemyStep(url, Some(""), clientSecret, response).verdict == Fail(MissingCredential(UdemyClientId), true)
  {
  }

  /** A YouTube URL of none of the three shapes is refused without a request. */
  lemma YoutubeUnrecognisedUrl(url: string, apiKey: string, response: YoutubeResponse)
    requires apiKey != ""
    requires ApiUrls.VideoId(url).None? && ApiUrls.PlaylistId(url).None? && ApiUrls.ChannelId(url).None?
    ensures YoutubeStep(url, Some(apiKey), response) == ApiStep(None, Fail(UnrecognisedUrl(url), true))
  {
  }
}
