/** The pending-result registry every health-check runner shares
    (`HealthCheckRunner`): a map from URL to a set-once deferred result,
    the crawler's request queue and its running flag. `run` hands out the
    promise of the URL's deferred, creating and enqueueing it the first
    time; the crawler's success and failure callbacks settle the deferred
    of the request's URL; `teardown` drops everything.

    The `Deferred` class is not part of this model; it is taken to behave
    as a promise does: the first `resolve` settles it and later ones are
    ignored. Each deferred carries the number it was allocated under, so
    that a promise (URL and number) names one deferred and no other. */
module Registry {
  import opened Wrappers

  /** The credentials the API runners read from the environment. */
  datatype Credential = YoutubeApiKey | ZenscrapeApiKey | UdemyClientId | UdemyClientSecret

  /** What the file-type sniffer reports for a buffer. */
  datatype FileType = FileType(ext: string, mime: string)

  /** The errors a check can end with. */
  datatype CheckError =
    | NotPdf(found: Option<FileType>)
    | NoTitleText
    | NoSelectorText(selector: string)
    | MissingCredential(credential: Credential)
    | UnrecognisedUrl(url: string)
    | NoResults
    | ConcurrentRequests
    | MalformedResponse
    | CrawlerError(message: string)

  /** `HealthCheckResult`: the URL always echoes the request's URL. */
  datatype HealthCheckResult =
    | Success(url: string, title: string)
    | Failure(url: string, error: CheckError)

  /** The page-load milestone the rendering runner waits for. */
  datatype LoadState = Load | DomContentLoaded | NetworkIdle

  /** The `userData` a request carries, one shape per strategy. */
  datatype UserData =
    | NoData
    | Selector(titleSelector: string)
    | Rendered(titleSelector: string, waitForLoadState: LoadState)
    | Scrape(titleSelector: string, render: bool, premium: bool)

  /** A crawler request. */
  datatype Request = Request(url: string, userData: UserData)

  /** A set-once slot: unsettled while `settled` is `None`. */
  datatype Deferred = Deferred(id: nat, settled: Option<HealthCheckResult>)

  /** What `run` returns: the deferred of `url` allocated as number `id`. */
  datatype Promise = Promise(url: string, id: nat)

  /** The state of one runner. */
  datatype Runner = Runner(
    results: map<string, Deferred>,
    queue: seq<Request>,
    running: bool,
    nextId: nat)

  /** A runner as constructed: nothing registered, crawler idle. */
  const Initial: Runner := Runner(map[], [], false, 0)

  /** Deferreds have distinct numbers below `nextId`, and a settled
      deferred holds the result for its own URL. */
  ghost predicate Valid(r: Runner) {
    && (forall u :: u in r.results ==> r.results[u].id < r.nextId)
    && (forall u, v :: u in r.results && v in r.results && u != v ==> r.results[u].id != r.results[v].id)
    && (forall u :: u in r.results && r.results[u].settled.Some? ==> r.results[u].settled.value.url == u)
  }

  /** What awaiting a promise yields in state `r`: the settled result, or
      `None` while it is pending or once its deferred has been dropped. */
  function Await(r: Runner, p: Promise): (v: Option<HealthCheckResult>)
    ensures v.Some? ==> p.url in r.results && r.results[p.url].id == p.id
  {
    if p.url in r.results && r.results[p.url].id == p.id then r.results[p.url].settled else None
  }

  /** What `run` produces: the next state, the promise handed back, and
      whether the crawler was started by this call. */
  datatype RunStep = RunStep(runner: Runner, promise: Promise, started: bool)

  /** `run(url, userData)`. `accepted` is whether the crawler took the
      request; a rejection is logged and otherwise ignored. */
  function Run(r: Runner, url: string, userData: UserData, accepted: bool): (s: RunStep)
    ensures s.promise.url == url
    ensures url in s.runner.results && s.runner.results[url].id == s.promise.id
    ensures url in r.results ==> s.runner == r && !s.started && s.promise.id == r.results[url].id
    ensures url !in r.results ==>
      && s.runner.results.Keys == r.results.Keys + {url}
      && (forall u :: u in r.results ==> s.runner.results[u] == r.results[u])
      && s.runner.results[url].settled.None?
      && s.runner.queue == r.queue + (if accepted then [Request(url, userData)] else [])
      && s.runner.running
      && s.started == !r.running
  {
    if url in r.results then
      RunStep(r, Promise(url, r.results[url].id), false)
    else
      var results := r.results[url := Deferred(r.nextId, None)];
      var queue := if accepted then r.queue + [Request(url, userData)] else r.queue;
      RunStep(Runner(results, queue, true, r.nextId + 1), Promise(url, r.nextId), !r.running)
  }

  /** `Deferred.resolve` on the deferred registered for `url`, if any. */
  function Settle(r: Runner, url: string, result: HealthCheckResult): (r': Runner)
    ensures r'.queue == r.queue && r'.running == r.running && r'.nextId == r.nextId
    ensures r'.results.Keys == r.results.Keys
    ensures forall u :: u in r.results && u != url ==> r'.results[u] == r.results[u]
    ensures url in r.results ==> r'.results[url].id == r.results[url].id
    ensures url in r.results && r.results[url].settled.None? ==> r'.results[url].settled == Some(result)
    ensures url !in r.results || r.results[url].settled.Some? ==> r' == r
  {
    if url in r.results && r.results[url].settled.None? then
      r.(results := r.results[url := Deferred(r.results[url].id, Some(result))])
    else r
  }

  /** `success(request, { title })`. */
  function Succeeded(r: Runner, request: Request, title: string): (r': Runner)
    ensures r'.results.Keys == r.results.Keys
    ensures request.url in r.results && r.results[request.url].settled.None? ==>
              r'.results[request.url].settled == Some(Success(request.url, title))
    ensures request.url !in r.results || r.results[request.url].settled.Some? ==> r' == r
  {
    Settle(r, request.url, Success(request.url, title))
  }

  /** `failure(request, error)`. */
  function Failed(r: Runner, request: Request, error: CheckError): (r': Runner)
    ensures r'.results.Keys == r.results.Keys
    ensures request.url in r.results && r.results[request.url].settled.None? ==>
              r'.results[request.url].settled == Some(Failure(request.url, error))
    ensures request.url !in r.results || r.results[request.url].settled.Some? ==> r' == r
  {
    Settle(r, request.url, Failure(request.url, error))
  }

  /** `teardown()`: the queue is dropped, the crawler stopped and the
      registry cleared. */
  function Teardown(r: Runner): (r': Runner)
    ensures r'.results == map[] && r'.queue == [] && !r'.running
    ensures r'.nextId == r.nextId
  {
    Runner(map[], [], false, r.nextId)
  }

  /** A second `run` for a URL returns the same promise and changes
      nothing, whatever its `userData`: one retrieval per URL. */
  lemma RunDeduplicates(r: Runner, url: string, d1: UserData, a1: bool, d2: UserData, a2: bool)
    ensures var s1 := Run(r, url, d1, a1);
            var s2 := Run(s1.runner, url, d2, a2);
            s2.runner == s1.runner && s2.promise == s1.promise && !s2.started
  {
  }

  /** A fresh URL adds one deferred and at most one request, and starts
      the crawler exactly when it was idle. */
  lemma RunFresh(r: Runner, url: string, userData: UserData, accepted: bool)
    requires url !in r.results
    ensures var s := Run(r, url, userData, accepted);
            && |s.runner.results| == |r.results| + 1
            && |s.runner.queue| == |r.queue| + (if accepted then 1 else 0)
            && Await(s.runner, s.promise).None?
            && (s.started <==> !r.running)
  {
    var s := Run(r, url, userData, accepted);
    assert s.runner.results.Keys == r.results.Keys + {url};
  }

  lemma RunKeepsValid(r: Runner, url: string, userData: UserData, accepted: bool)
    requires Valid(r)
    ensures Valid(Run(r, url, userData, accepted).runner)
  {
  }

  lemma SucceededKeepsValid(r: Runner, request: Request, title: string)
    requires Valid(r)
    ensures Valid(Succeeded(r, request, title))
  {
  }

  lemma FailedKeepsValid(r: Runner, request: Request, error: CheckError)
    requires Valid(r)
    ensures Valid(Failed(r, request, error))
  {
  }

  lemma TeardownKeepsValid(r: Runner)
    requires Valid(r)
    ensures Valid(Teardown(r))
  {
  }

  /** A promise that resolves carries the result for its own URL: a
      result for one URL never satisfies a request for another. */
  lemma AwaitMatchesUrl(r: Runner, p: Promise)
    requires Valid(r) && Await(r, p).Some?
    ensures Await(r, p).value.url == p.url
  {
  }

  /** A callback settles a pending promise of its request's URL with
      the matching result. */
  lemma CallbackSettles(r: Runner, request: Request, title: string, error: CheckError)
    requires request.url in r.results && r.results[request.url].settled.None?
    ensures var p := Promise(request.url, r.results[request.url].id);
            && Await(Succeeded(r, request, title), p) == Some(Success(request.url, title))
            && Await(Failed(r, request, error), p) == Some(Failure(request.url, error))
  {
  }

  /** A callback for a URL nobody ran is ignored. */
  lemma CallbackForUnknownUrl(r: Runner, request: Request, title: string, error: CheckError)
    requires request.url !in r.results
    ensures Succeeded(r, request, title) == r && Failed(r, request, error) == r
  {
  }

  /** A second callback for a URL changes nothing: the first one wins. */
  lemma SettleOnce(r: Runner, url: string, first: HealthCheckResult, second: HealthCheckResult)
    ensures Settle(Settle(r, url, first), url, second) == Settle(r, url, first)
  {
  }

  /** Settling one URL leaves what every promise of another URL awaits. */
  lemma SettleIsolated(r: Runner, url: string, result: HealthCheckResult, p: Promise)
    requires p.url != url
    ensures Await(Settle(r, url, result), p) == Await(r, p)
  {
  }

  /** Once settled, a promise keeps its result through every later `run`
      and callback until teardown. */
  lemma SettledIsStable(r: Runner, p: Promise, url: string, userData: UserData, accepted: bool,
                        result: HealthCheckResult)
    requires Await(r, p).Some?
    ensures Await(Run(r, url, userData, accepted).runner, p) == Await(r, p)
    ensures Await(Settle(r, url, result), p) == Await(r, p)
  {
  }

  /** Every registered deferred was allocated at or after `floor`. */
  ghost predicate AllocatedSince(r: Runner, floor: nat) {
    floor <= r.nextId && forall u :: u in r.results ==> r.results[u].id >= floor
  }

  /** Teardown abandons the promises handed out before it: runs and
      callbacks after it only touch deferreds allocated after it, so such
      a promise is never settled again. */
  lemma TeardownAbandons(r: Runner, p: Promise)
    requires p.id < r.nextId
    ensures AllocatedSince(Teardown(r), r.nextId)
    ensures Await(Teardown(r), p).None?
  {
  }

  lemma AbandonedStaysAbandoned(r: Runner, floor: nat, p: Promise, url: string, userData: UserData,
                                accepted: bool, result: HealthCheckResult)
    requires AllocatedSince(r, floor) && p.id < floor
    ensures Await(r, p).None?
    ensures AllocatedSince(Run(r, url, userData, accepted).runner, floor)
    ensures AllocatedSince(Settle(r, url, result), floor)
  {
  }

  /** A newly constructed runner satisfies the invariant the operations keep. */
  lemma InitialValid()
    ensures Valid(Initial)
  {
  }

  /** Tearing down a runner that never ran anything leaves it empty. */
  lemma TeardownInitial()
    ensures Teardown(Initial) == Initial
  {
  }
}
